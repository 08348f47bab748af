/**
 * The schema.org type/property tree and its construction from the schema.org vocabulary
 * graph (`processData` of sd-validation/scripts/generate-schema-tree.js). Every labelled
 * graph item becomes an entry: `rdf:Property` items become properties whose parents are
 * the types of their `domainIncludes`, every other item a type whose parents are its
 * `rdfs:subClassOf` types. Reading a property of `null`, or calling `replace` on a value
 * that is not a string, throws a TypeError; here that is a Failure.
 */
module SchemaTree {
  import opened Wrappers
  import opened JsString
  import opened Json

  /** `{name, parent}`: the label as the graph gives it, and the parent names. */
  datatype Entry = Entry(name: Json, parent: seq<string>)

  datatype Tree = Tree(types: seq<Entry>, properties: seq<Entry>)

  /** The only error the builder raises. */
  datatype TypeError = TypeError

  const SchemaPrefix := "http://schema.org/"

  /** `str.replace('http://schema.org/', '')`: the first plain-http occurrence only. */
  function RemovePrefix(str: string): string {
    ReplaceFirst(str, SchemaPrefix, "")
  }

  lemma RemovePrefixOfPrefixed(x: string)
    ensures RemovePrefix(SchemaPrefix + x) == x
  {
    assert (SchemaPrefix + x)[..|SchemaPrefix|] == SchemaPrefix;
    ReplaceFirstPrefix(SchemaPrefix + x, SchemaPrefix);
    assert (SchemaPrefix + x)[|SchemaPrefix|..] == x;
  }

  /** The https form of the address is not the prefix removed. */
  lemma RemovePrefixKeepsHttps()
    ensures RemovePrefix("https://schema.org/") == "https://schema.org/"
  {
    var s := "https://schema.org/";
    MismatchAt(s, SchemaPrefix, 0, 4);
    MismatchAt(s, SchemaPrefix, 1, 0);
  }

  /** One differing character rules out an occurrence. */
  lemma MismatchAt(s: string, pattern: string, j: nat, t: nat)
    requires t < |pattern| && j + t < |s| && s[j + t] != pattern[t]
    ensures !OccursAt(s, pattern, j)
  {
  }

  /** JavaScript truthiness of a JSON value. */
  predicate Truthy(v: Json) {
    match v
    case JNull => false
    case JBool(b) => b
    case JNum(n) => n != 0.0
    case JStr(s) => |s| > 0
    case _ => true
  }

  /** `item['@id']` is a string (and `item` is not null), so `removePrefix` can read it. */
  predicate HasStringId(item: Json) {
    !item.JNull? && Field(item, "@id").Some? && Field(item, "@id").value.JStr?
  }

  function IdOf(item: Json): string
    requires HasStringId(item)
  {
    Field(item, "@id").value.s
  }

  /** `parents.map(item => removePrefix(item['@id']))`, throwing at the first bad item. */
  function ParentIds(items: seq<Json>): (r: Result<seq<string>, TypeError>)
    ensures r.Failure? <==> exists i :: 0 <= i < |items| && !HasStringId(items[i])
    ensures r.Success? ==>
      (|r.value| == |items| && forall i :: 0 <= i < |items| ==> r.value[i] == RemovePrefix(IdOf(items[i])))
  {
    if |items| == 0 then Success([])
    else if !HasStringId(items[0]) then Failure(TypeError)
    else
      var rest := ParentIds(items[1..]);
      assert forall i :: 0 < i < |items| ==> items[i] == items[1..][i - 1];
      if rest.Failure? then Failure(TypeError)
      else Success([RemovePrefix(IdOf(items[0]))] + rest.value)
  }

  /**
   * `getParents`: an array gives each item's id; another truthy value with a truthy `@id`
   * gives that one id (it must be a string); anything else, including a missing value, none.
   */
  function GetParents(parents: Option<Json>): (r: Result<seq<string>, TypeError>)
    ensures parents.Some? && parents.value.JArr? ==> r == ParentIds(parents.value.items)
    ensures (parents.None? || !Truthy(parents.value)) ==> r == Success([])
    ensures parents.Some? && !parents.value.JArr? && Truthy(parents.value) ==>
      var id := Field(parents.value, "@id");
      if id.None? || !Truthy(id.value) then r == Success([])
      else if id.value.JStr? then r == Success([RemovePrefix(id.value.s)])
      else r == Failure(TypeError)
  {
    if parents.None? then Success([])
    else if parents.value.JArr? then ParentIds(parents.value.items)
    else if !Truthy(parents.value) then Success([])
    else
      var id := Field(parents.value, "@id");
      if id.None? || !Truthy(id.value) then Success([])
      else if id.value.JStr? then Success([RemovePrefix(id.value.s)])
      else Failure(TypeError)
  }

  predicate Labelled(item: Json) {
    Field(item, "rdfs:label").Some?
  }

  predicate IsProperty(item: Json) {
    Field(item, "@type") == Some(JStr("rdf:Property"))
  }

  /** The entry one labelled item contributes, before it is filed. */
  function EntryOf(item: Json): Result<Entry, TypeError>
    requires Labelled(item)
  {
    var parents := GetParents(Field(item, if IsProperty(item) then "http://schema.org/domainIncludes" else "rdfs:subClassOf"));
    if parents.Failure? then Failure(TypeError)
    else Success(Entry(Field(item, "rdfs:label").value, parents.value))
  }

  /** One step of the `forEach`. */
  function AddItem(tree: Tree, item: Json): Result<Tree, TypeError> {
    if item.JNull? then Failure(TypeError)
    else if !Labelled(item) then Success(tree)
    else
      match EntryOf(item)
      case Failure(e) => Failure(e)
      case Success(entry) =>
        if IsProperty(item) then Success(Tree(tree.types, tree.properties + [entry]))
        else Success(Tree(tree.types + [entry], tree.properties))
  }

  /** The tree built from the graph items, in graph order. */
  function BuildTree(items: seq<Json>): Result<Tree, TypeError> {
    if |items| == 0 then Success(Tree([], []))
    else
      match BuildTree(items[..|items| - 1])
      case Failure(e) => Failure(e)
      case Success(tree) => AddItem(tree, items[|items| - 1])
  }

  /** What `processData` returns for a parsed vocabulary document. */
  function SchemaTreeOf(data: Json): Result<Tree, TypeError> {
    if data.JNull? then Failure(TypeError)
    else
      match Field(data, "@graph")
      case Some(JArr(items)) => BuildTree(items)
      case _ => Failure(TypeError)
  }

  method ProcessData(data: Json) returns (r: Result<Tree, TypeError>)
    ensures r == SchemaTreeOf(data)
  {
    if data.JNull? {
      return Failure(TypeError);
    }
    var graph := Field(data, "@graph");
    if !(graph.Some? && graph.value.JArr?) {
      return Failure(TypeError);
    }
    var items := graph.value.items;
    assert SchemaTreeOf(data) == BuildTree(items);
    var types: seq<Entry> := [];
    var properties: seq<Entry> := [];
    var i := 0;
    while i < |items|
      invariant 0 <= i <= |items|
      invariant BuildTree(items[..i]) == Success(Tree(types, properties))
    {
      var item := items[i];
      assert items[..i + 1][..i] == items[..i] && items[..i + 1][i] == item;
      if item.JNull? {
        FailedPrefix(items, i + 1);
        return Failure(TypeError);
      }
      if Labelled(item) {
        var entry := EntryOf(item);
        if entry.Failure? {
          FailedPrefix(items, i + 1);
          return Failure(TypeError);
        }
        if IsProperty(item) {
          properties := properties + [entry.value];
        } else {
          types := types + [entry.value];
        }
      }
      i := i + 1;
    }
    assert items[..i] == items;
    return Success(Tree(types, properties));
  }

  function LabelledCount(items: seq<Json>): nat {
    if |items| == 0 then 0
    else LabelledCount(items[..|items| - 1]) + if Labelled(items[|items| - 1]) then 1 else 0
  }

  /** Every labelled item gives exactly one entry, and no unlabelled one gives any. */
  lemma {:induction false} EntryPerLabelledItem(items: seq<Json>)
    requires BuildTree(items).Success?
    ensures |BuildTree(items).value.types| + |BuildTree(items).value.properties| == LabelledCount(items)
  {
    if |items| > 0 {
      EntryPerLabelledItem(items[..|items| - 1]);
    }
  }

  /** Later items only append: the entries of a prefix come first and in the same order. */
  lemma {:induction false} BuildTreeKeepsOrder(items: seq<Json>, n: nat)
    requires n <= |items| && BuildTree(items).Success?
    ensures BuildTree(items[..n]).Success?
    ensures BuildTree(items[..n]).value.types <= BuildTree(items).value.types
    ensures BuildTree(items[..n]).value.properties <= BuildTree(items).value.properties
    decreases |items|
  {
    if n < |items| {
      var init := items[..|items| - 1];
      assert init[..n] == items[..n];
      BuildTreeKeepsOrder(init, n);
    } else {
      assert items[..n] == items;
    }
  }

  /** Once a prefix of the graph fails, the whole graph does. */
  lemma FailedPrefix(items: seq<Json>, n: nat)
    requires n <= |items| && BuildTree(items[..n]).Failure?
    ensures BuildTree(items) == Failure(TypeError)
  {
    match BuildTree(items)
    case Success(_) => BuildTreeKeepsOrder(items, n);
    case Failure(e) => match e case TypeError =>
  }

  /** A labelled property item of the graph turns into a property entry, any other into a type. */
  lemma {:induction false} EntriesFromItems(items: seq<Json>)
    requires BuildTree(items).Success?
    ensures forall e :: e in BuildTree(items).value.properties ==>
      exists i :: 0 <= i < |items| && Labelled(items[i]) && IsProperty(items[i]) && EntryOf(items[i]) == Success(e)
    ensures forall e :: e in BuildTree(items).value.types ==>
      exists i :: 0 <= i < |items| && Labelled(items[i]) && !IsProperty(items[i]) && EntryOf(items[i]) == Success(e)
  {
    if |items| > 0 {
      var init := items[..|items| - 1];
      EntriesFromItems(init);
      assert forall i :: 0 <= i < |init| ==> init[i] == items[i];
    }
  }

  /** The build fails exactly at a null item or a labelled item whose parents cannot be read. */
  lemma {:induction false} BuildTreeFails(items: seq<Json>)
    ensures BuildTree(items).Failure? <==>
      exists i :: 0 <= i < |items| && (items[i].JNull? || (Labelled(items[i]) && EntryOf(items[i]).Failure?))
  {
    if |items| > 0 {
      var init := items[..|items| - 1];
      BuildTreeFails(init);
      assert forall i :: 0 <= i < |init| ==> init[i] == items[i];
    }
  }
}
