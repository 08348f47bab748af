/**
 * The schema.org check of sd-validation/schema.js, against a type/property tree given as
 * a parameter. Each `@type` key the traversal reaches is checked: its types must be known,
 * and then every other key of the object holding it must be a property of one of those
 * types or of their ancestors. A modelled TypeError or stack overflow is a Failure.
 */
module Schema {
  import opened Wrappers
  import opened JsString
  import opened Json
  import opened Walk
  import opened SchemaTree

  const HttpsPrefix := "https://schema.org/"

  /** `/https?:\/\/schema\.org\//` matches at k. */
  predicate UrlAt(s: string, k: int) {
    OccursAt(s, SchemaPrefix, k) || OccursAt(s, HttpsPrefix, k)
  }

  /** The leftmost match of the address pattern at or after k: its start and length. */
  function UrlFrom(s: string, k: nat): (r: Option<(nat, nat)>)
    ensures r.Some? ==> r.value.0 + r.value.1 <= |s|
    decreases |s| - k
  {
    if k >= |s| then None
    else if OccursAt(s, SchemaPrefix, k) then Some((k, |SchemaPrefix|))
    else if OccursAt(s, HttpsPrefix, k) then Some((k, |HttpsPrefix|))
    else UrlFrom(s, k + 1)
  }

  /** None exactly when nothing matches; otherwise the leftmost match and which form it is. */
  lemma {:induction false} UrlFromMeans(s: string, k: nat)
    ensures UrlFrom(s, k).None? <==> forall j :: k <= j ==> !UrlAt(s, j)
    ensures UrlFrom(s, k).Some? ==>
      (var m := UrlFrom(s, k).value;
       k <= m.0 && (forall j :: k <= j < m.0 ==> !UrlAt(s, j)) &&
       if OccursAt(s, SchemaPrefix, m.0) then m.1 == |SchemaPrefix|
       else OccursAt(s, HttpsPrefix, m.0) && m.1 == |HttpsPrefix|)
    decreases |s| - k
  {
    if k < |s| {
      if UrlAt(s, k) {
      } else {
        UrlFromMeans(s, k + 1);
      }
    }
  }

  /** `SCHEMA_ORG_URL_REGEX.test(s)`: the address occurs somewhere in s. */
  predicate HasSchemaUrl(s: string) {
    UrlFrom(s, 0).Some?
  }

  lemma HasSchemaUrlMeans(s: string)
    ensures HasSchemaUrl(s) <==> exists j :: UrlAt(s, j)
  {
    UrlFromMeans(s, 0);
    if exists j :: UrlAt(s, j) {
      var j :| UrlAt(s, j);
      assert 0 <= j;
    }
  }

  /** `cleanName`: the leftmost http or https schema.org address removed, once. */
  function CleanName(uri: string): (r: string)
    ensures |r| <= |uri|
  {
    match UrlFrom(uri, 0)
    case None => uri
    case Some((p, n)) => uri[..p] + uri[p + n..]
  }

  lemma CleanNameUnchanged(uri: string)
    requires forall j :: !UrlAt(uri, j)
    ensures CleanName(uri) == uri
  {
    UrlFromMeans(uri, 0);
  }

  /** Either form of the address in front of a name is removed. */
  lemma CleanNameOfUrl(x: string)
    ensures CleanName(SchemaPrefix + x) == x
    ensures CleanName(HttpsPrefix + x) == x
    ensures HasSchemaUrl(SchemaPrefix + x) && HasSchemaUrl(HttpsPrefix + x)
  {
    var s := SchemaPrefix + x;
    assert s[..|SchemaPrefix|] == SchemaPrefix;
    assert OccursAt(s, SchemaPrefix, 0);
    assert s[|SchemaPrefix|..] == x;
    var t := HttpsPrefix + x;
    assert t[..|HttpsPrefix|] == HttpsPrefix;
    assert OccursAt(t, HttpsPrefix, 0);
    MismatchAt(t, SchemaPrefix, 0, 4);
    assert t[|HttpsPrefix|..] == x;
  }

  /** Names shorter than the address contain none. */
  lemma ShortNameHasNoUrl(s: string)
    requires |s| < |SchemaPrefix|
    ensures !HasSchemaUrl(s) && CleanName(s) == s
  {
    UrlFromMeans(s, 0);
  }

  /** The first entry named `name`. */
  function FindEntry(entries: seq<Entry>, name: Json): Option<Entry> {
    if |entries| == 0 then None
    else if entries[0].name == name then Some(entries[0])
    else FindEntry(entries[1..], name)
  }

  /** Absent exactly when no entry has the name; otherwise the first entry that has it. */
  lemma {:induction false} FindEntryMeans(entries: seq<Entry>, name: Json)
    ensures FindEntry(entries, name).None? <==> forall i :: 0 <= i < |entries| ==> entries[i].name != name
    ensures FindEntry(entries, name).Some? ==> (FindEntry(entries, name).value.name == name &&
      exists i :: 0 <= i < |entries| && entries[i] == FindEntry(entries, name).value &&
        forall j :: 0 <= j < i ==> entries[j].name != name)
  {
    if |entries| > 0 && entries[0].name != name {
      var r := FindEntry(entries[1..], name);
      FindEntryMeans(entries[1..], name);
      assert forall i :: 1 <= i < |entries| ==> entries[i] == entries[1..][i - 1];
      if r.Some? {
        var i :| 0 <= i < |entries[1..]| && entries[1..][i] == r.value &&
          forall j :: 0 <= j < i ==> entries[1..][j].name != name;
        assert entries[i + 1] == r.value && forall j :: 0 <= j < i + 1 ==> entries[j].name != name;
      }
    }
  }

  /** `findType`: the first type whose name is the cleaned name, if any. */
  function FindType(tree: Tree, t: string): Option<Entry> {
    FindEntry(tree.types, JStr(CleanName(t)))
  }

  /** `isKnownType`. */
  predicate IsKnownType(tree: Tree, t: string) {
    FindType(tree, t).Some?
  }

  /** A type is known exactly when some type entry carries its cleaned name. */
  lemma KnownTypeMeans(tree: Tree, t: string)
    ensures IsKnownType(tree, t) <==> exists i :: 0 <= i < |tree.types| && tree.types[i].name == JStr(CleanName(t))
  {
    FindEntryMeans(tree.types, JStr(CleanName(t)));
    if IsKnownType(tree, t) {
      var i :| 0 <= i < |tree.types| && tree.types[i] == FindType(tree, t).value &&
        forall j :: 0 <= j < i ==> tree.types[j].name != JStr(CleanName(t));
    }
  }

  /** The names of the properties listing `cleanType` among their parents, in tree order. */
  function OwnProps(properties: seq<Entry>, cleanType: string): seq<Json> {
    if |properties| == 0 then []
    else (if cleanType in properties[0].parent then [properties[0].name] else []) + OwnProps(properties[1..], cleanType)
  }

  lemma {:induction false} OwnPropsMembers(properties: seq<Entry>, cleanType: string)
    ensures forall x :: x in OwnProps(properties, cleanType) <==>
      exists i :: 0 <= i < |properties| && properties[i].name == x && cleanType in properties[i].parent
  {
    if |properties| > 0 {
      OwnPropsMembers(properties[1..], cleanType);
      assert forall i :: 1 <= i < |properties| ==> properties[i] == properties[1..][i - 1];
    }
  }

  /** What `getPropsForType` can throw. */
  datatype SchemaError =
    | UndefinedType  // reading `.parent` of a type `findType` did not find
    | NotAString     // `cleanName` of a type value that is no string
    | StackExceeded  // the recursion through parent types did not end within the fuel

  /**
   * `getPropsForType`: the type's own properties, then those of each parent type in
   * order, recursively. `fuel` bounds the depth of the recursion.
   */
  function PropsForType(tree: Tree, t: string, fuel: nat): Result<seq<Json>, SchemaError>
    decreases fuel, 0
  {
    if fuel == 0 then Failure(StackExceeded)
    else
      var found := FindType(tree, t);
      if found.None? then Failure(UndefinedType)
      else
        var inherited := ParentsProps(tree, found.value.parent, fuel - 1);
        if inherited.Failure? then inherited
        else Success(OwnProps(tree.properties, CleanName(t)) + inherited.value)
  }

  /** The `reduce` over parent types: their properties concatenated in order. */
  function ParentsProps(tree: Tree, parents: seq<string>, fuel: nat): Result<seq<Json>, SchemaError>
    decreases fuel, |parents|
  {
    if |parents| == 0 then Success([])
    else
      var first := PropsForType(tree, parents[0], fuel);
      if first.Failure? then first
      else
        var rest := ParentsProps(tree, parents[1..], fuel);
        if rest.Failure? then rest
        else Success(first.value + rest.value)
  }

  /** An unknown type throws; a result starts with the type's own properties. */
  lemma PropsForTypeShape(tree: Tree, t: string, fuel: nat)
    ensures fuel > 0 && FindType(tree, t).None? ==> PropsForType(tree, t, fuel) == Failure(UndefinedType)
    ensures fuel == 0 ==> PropsForType(tree, t, fuel) == Failure(StackExceeded)
    ensures PropsForType(tree, t, fuel).Success? ==>
      FindType(tree, t).Some? && OwnProps(tree.properties, CleanName(t)) <= PropsForType(tree, t, fuel).value
  {
  }

  /** A found type's result is its own properties followed by its parents' result. */
  lemma PropsThroughParents(tree: Tree, t: string, fuel: nat)
    requires fuel > 0 && FindType(tree, t).Some?
    ensures var inherited := ParentsProps(tree, FindType(tree, t).value.parent, fuel - 1);
      PropsForType(tree, t, fuel) ==
        if inherited.Failure? then inherited
        else Success(OwnProps(tree.properties, CleanName(t)) + inherited.value)
  {
  }

  /** u is t itself or an ancestor of t through at most fuel - 1 parent links. */
  predicate Reachable(tree: Tree, t: string, u: string, fuel: nat)
    decreases fuel
  {
    fuel > 0 &&
    (u == t ||
     (FindType(tree, t).Some? &&
      exists i :: 0 <= i < |FindType(tree, t).value.parent| && Reachable(tree, FindType(tree, t).value.parent[i], u, fuel - 1)))
  }

  /** Some property entry named x lists type u among its parents. */
  predicate Declares(tree: Tree, u: string, x: Json) {
    exists i :: 0 <= i < |tree.properties| && tree.properties[i].name == x && CleanName(u) in tree.properties[i].parent
  }

  /** On success, the list holds exactly the properties declared by t or one of its ancestors. */
  lemma {:induction false} PropsForTypeMembers(tree: Tree, t: string, fuel: nat)
    requires PropsForType(tree, t, fuel).Success?
    ensures forall x :: x in PropsForType(tree, t, fuel).value <==> exists u :: Reachable(tree, t, u, fuel) && Declares(tree, u, x)
    decreases fuel, 0
  {
    var entry := FindType(tree, t).value;
    var own := OwnProps(tree.properties, CleanName(t));
    var inherited := ParentsProps(tree, entry.parent, fuel - 1).value;
    PropsThroughParents(tree, t, fuel);
    assert PropsForType(tree, t, fuel).value == own + inherited;
    OwnPropsMembers(tree.properties, CleanName(t));
    ParentsPropsMembers(tree, entry.parent, fuel - 1);
    forall x
      ensures x in own + inherited <==> exists u :: Reachable(tree, t, u, fuel) && Declares(tree, u, x)
    {
      if x in own {
        assert Reachable(tree, t, t, fuel) && Declares(tree, t, x);
      } else if x in inherited {
        var i, u :| 0 <= i < |entry.parent| && Reachable(tree, entry.parent[i], u, fuel - 1) && Declares(tree, u, x);
        assert Reachable(tree, t, u, fuel);
      }
      if exists u :: Reachable(tree, t, u, fuel) && Declares(tree, u, x) {
        var u :| Reachable(tree, t, u, fuel) && Declares(tree, u, x);
        if u == t {
          assert x in own;
        } else {
          var i :| 0 <= i < |entry.parent| && Reachable(tree, entry.parent[i], u, fuel - 1);
          assert x in inherited;
        }
      }
    }
  }

  lemma {:induction false} ParentsPropsMembers(tree: Tree, parents: seq<string>, fuel: nat)
    requires ParentsProps(tree, parents, fuel).Success?
    ensures forall x :: x in ParentsProps(tree, parents, fuel).value <==>
      exists i, u :: 0 <= i < |parents| && Reachable(tree, parents[i], u, fuel) && Declares(tree, u, x)
    decreases fuel, |parents|
  {
    if |parents| > 0 {
      PropsForTypeMembers(tree, parents[0], fuel);
      ParentsPropsMembers(tree, parents[1..], fuel);
      assert forall i :: 1 <= i < |parents| ==> parents[i] == parents[1..][i - 1];
      var first := PropsForType(tree, parents[0], fuel).value;
      var rest := ParentsProps(tree, parents[1..], fuel).value;
      assert ParentsProps(tree, parents, fuel).value == first + rest;
      forall x
        ensures x in first + rest <==> exists i, u :: 0 <= i < |parents| && Reachable(tree, parents[i], u, fuel) && Declares(tree, u, x)
      {
        if exists i, u :: 0 <= i < |parents| && Reachable(tree, parents[i], u, fuel) && Declares(tree, u, x) {
          var i, u :| 0 <= i < |parents| && Reachable(tree, parents[i], u, fuel) && Declares(tree, u, x);
          if i == 0 {
            assert x in first;
          } else {
            assert Reachable(tree, parents[1..][i - 1], u, fuel);
            assert x in rest;
          }
        }
        if x in first {
          var u :| Reachable(tree, parents[0], u, fuel) && Declares(tree, u, x);
        }
      }
    }
  }

  /** More fuel changes nothing once the recursion ended within the fuel. */
  lemma {:induction false} PropsForTypeFuel(tree: Tree, t: string, fuel: nat)
    requires PropsForType(tree, t, fuel) != Failure(StackExceeded)
    ensures PropsForType(tree, t, fuel + 1) == PropsForType(tree, t, fuel)
    decreases fuel, 0
  {
    match FindType(tree, t)
    case None =>
      PropsForTypeShape(tree, t, fuel);
      PropsForTypeShape(tree, t, fuel + 1);
    case Some(entry) =>
      PropsThroughParents(tree, t, fuel);
      PropsThroughParents(tree, t, fuel + 1);
      ParentsPropsFuel(tree, entry.parent, fuel - 1);
  }

  lemma {:induction false} ParentsPropsFuel(tree: Tree, parents: seq<string>, fuel: nat)
    requires ParentsProps(tree, parents, fuel) != Failure(StackExceeded)
    ensures ParentsProps(tree, parents, fuel + 1) == ParentsProps(tree, parents, fuel)
    decreases fuel, |parents|
  {
    if |parents| > 0 {
      PropsForTypeFuel(tree, parents[0], fuel);
      if PropsForType(tree, parents[0], fuel).Success? {
        ParentsPropsFuel(tree, parents[1..], fuel);
      }
    }
  }

  const UnknownValueType := "Unknown value type"
  const UnrecognizedPrefix := "Unrecognized schema.org type "
  const UnexpectedPrefix := "Unexpected property \""

  /** The types of a `@type` value: a string alone or an array's items; None for anything else. */
  function TypeList(typeOrTypes: Json): Option<seq<Json>> {
    if typeOrTypes.JStr? then Some([typeOrTypes])
    else if typeOrTypes.JArr? then Some(typeOrTypes.items)
    else None
  }

  /** The type names, when every type is a string; `cleanName` throws on the first that is not. */
  function StringsOf(types: seq<Json>): Option<seq<string>> {
    if |types| == 0 then Some([])
    else
      var init := StringsOf(types[..|types| - 1]);
      var last := types[|types| - 1];
      if init.None? || !last.JStr? then None else Some(init.value + [last.s])
  }

  lemma {:induction false} StringsOfMeans(types: seq<Json>)
    ensures StringsOf(types).Some? <==> forall i :: 0 <= i < |types| ==> types[i].JStr?
    ensures StringsOf(types).Some? ==>
      (|StringsOf(types).value| == |types| && forall i :: 0 <= i < |types| ==> StringsOf(types).value[i] == types[i].s)
  {
    if |types| > 0 {
      var init := types[..|types| - 1];
      StringsOfMeans(init);
      assert forall i :: 0 <= i < |init| ==> init[i] == types[i];
    }
  }

  /** `types.filter(t => !isKnownType(t))`. */
  function UnknownTypes(tree: Tree, names: seq<string>): seq<string> {
    if |names| == 0 then []
    else
      var last := names[|names| - 1];
      UnknownTypes(tree, names[..|names| - 1]) + if IsKnownType(tree, last) then [] else [last]
  }

  lemma {:induction false} UnknownTypesMeans(tree: Tree, names: seq<string>)
    ensures forall t :: t in UnknownTypes(tree, names) <==> t in names && !IsKnownType(tree, t)
    ensures |UnknownTypes(tree, names)| == 0 <==> forall i :: 0 <= i < |names| ==> IsKnownType(tree, names[i])
  {
    if |names| > 0 {
      var init := names[..|names| - 1];
      UnknownTypesMeans(tree, init);
      assert names == init + [names[|names| - 1]];
      assert forall i :: 0 <= i < |init| ==> init[i] == names[i];
    }
  }

  /** The errors for the unknown types: one for each that mentions the schema.org address. */
  function UnrecognizedErrors(unknown: seq<string>): seq<string> {
    TaggedWhere(t => HasSchemaUrl(t), UnrecognizedPrefix, unknown)
  }

  /** `prefix + x` for each x that passes `keep`, in order. */
  function TaggedWhere(keep: string -> bool, prefix: string, xs: seq<string>): seq<string> {
    if |xs| == 0 then []
    else
      var last := xs[|xs| - 1];
      TaggedWhere(keep, prefix, xs[..|xs| - 1]) + if keep(last) then [prefix + last] else []
  }

  lemma {:induction false} TaggedWhereMeans(keep: string -> bool, prefix: string, xs: seq<string>)
    ensures forall e :: e in TaggedWhere(keep, prefix, xs) <==> exists i :: 0 <= i < |xs| && keep(xs[i]) && e == prefix + xs[i]
    ensures (forall i :: 0 <= i < |xs| ==> !keep(xs[i])) ==> TaggedWhere(keep, prefix, xs) == []
    ensures (forall i :: 0 <= i < |xs| ==> keep(xs[i])) ==> |TaggedWhere(keep, prefix, xs)| == |xs|
  {
    if |xs| > 0 {
      var init := xs[..|xs| - 1];
      TaggedWhereMeans(keep, prefix, init);
      assert forall i :: 0 <= i < |init| ==> init[i] == xs[i];
    }
  }

  lemma TaggedWhereOne(keep: string -> bool, prefix: string, x: string)
    ensures TaggedWhere(keep, prefix, [x]) == if keep(x) then [prefix + x] else []
  {
    assert [x][..0] == [] && [x][0] == x;
    var tail := if keep(x) then [prefix + x] else [];
    assert [] + tail == tail;
  }

  /** A single unknown type: its error exactly when it is on the schema.org address. */
  lemma UnrecognizedOne(t: string)
    ensures UnrecognizedErrors([t]) == if HasSchemaUrl(t) then [UnrecognizedPrefix + t] else []
  {
    TaggedWhereOne(t => HasSchemaUrl(t), UnrecognizedPrefix, t);
  }

  /** An error for each schema.org type among the unknown ones, and for no other. */
  lemma UnrecognizedErrorsMeans(unknown: seq<string>)
    ensures forall e :: e in UnrecognizedErrors(unknown) <==>
      exists i :: 0 <= i < |unknown| && HasSchemaUrl(unknown[i]) && e == UnrecognizedPrefix + unknown[i]
    ensures (forall i :: 0 <= i < |unknown| ==> !HasSchemaUrl(unknown[i])) ==> UnrecognizedErrors(unknown) == []
    ensures (forall i :: 0 <= i < |unknown| ==> HasSchemaUrl(unknown[i])) ==> |UnrecognizedErrors(unknown)| == |unknown|
  {
    TaggedWhereMeans(t => HasSchemaUrl(t), UnrecognizedPrefix, unknown);
  }

  /** The safelist: the properties of every type, in type order. */
  function Safelist(tree: Tree, names: seq<string>, fuel: nat): Result<seq<Json>, SchemaError> {
    if |names| == 0 then Success([])
    else
      var init := Safelist(tree, names[..|names| - 1], fuel);
      if init.Failure? then init
      else
        var props := PropsForType(tree, names[|names| - 1], fuel);
        if props.Failure? then props
        else Success(init.value + props.value)
  }

  /** The first error aborts the whole safelist. */
  lemma {:induction false} SafelistFailureStays(tree: Tree, names: seq<string>, n: nat, fuel: nat)
    requires n <= |names| && Safelist(tree, names[..n], fuel).Failure?
    ensures Safelist(tree, names, fuel) == Safelist(tree, names[..n], fuel)
    decreases |names|
  {
    if n < |names| {
      var init := names[..|names| - 1];
      assert init[..n] == names[..n];
      SafelistFailureStays(tree, init, n, fuel);
    } else {
      assert names[..n] == names;
    }
  }

  /** On success, exactly the properties declared by one of the types or their ancestors. */
  lemma {:induction false} SafelistMembers(tree: Tree, names: seq<string>, fuel: nat)
    requires Safelist(tree, names, fuel).Success?
    ensures forall x :: x in Safelist(tree, names, fuel).value <==>
      exists i, u :: 0 <= i < |names| && Reachable(tree, names[i], u, fuel) && Declares(tree, u, x)
  {
    if |names| > 0 {
      var init := names[..|names| - 1];
      var last := names[|names| - 1];
      SafelistMembers(tree, init, fuel);
      PropsForTypeMembers(tree, last, fuel);
      assert forall i :: 0 <= i < |init| ==> init[i] == names[i];
      forall x | x in Safelist(tree, names, fuel).value
        ensures exists i, u :: 0 <= i < |names| && Reachable(tree, names[i], u, fuel) && Declares(tree, u, x)
      {
        if x !in Safelist(tree, init, fuel).value {
          var u :| Reachable(tree, last, u, fuel) && Declares(tree, u, x);
          assert Reachable(tree, names[|names| - 1], u, fuel);
        }
      }
      forall x | exists i, u :: 0 <= i < |names| && Reachable(tree, names[i], u, fuel) && Declares(tree, u, x)
        ensures x in Safelist(tree, names, fuel).value
      {
        var i, u :| 0 <= i < |names| && Reachable(tree, names[i], u, fuel) && Declares(tree, u, x);
        if i == |names| - 1 {
          assert x in PropsForType(tree, last, fuel).value;
        } else {
          assert Reachable(tree, init[i], u, fuel);
        }
      }
    }
  }

  /** `key.replace(/-(input|output)$/, '')`. */
  function StripConstraint(key: string): string {
    if EndsWith(key, "-input") then key[..|key| - 6]
    else if EndsWith(key, "-output") then key[..|key| - 7]
    else key
  }

  lemma StripConstraintCases(name: string)
    ensures StripConstraint(name + "-input") == name
    ensures StripConstraint(name + "-output") == name
    ensures !EndsWith(name, "-input") && !EndsWith(name, "-output") ==> StripConstraint(name) == name
  {
    var a, b := name + "-input", name + "-output";
    assert a[|a| - 6..] == "-input" && a[..|a| - 6] == name;
    assert b[|b| - 6..] == "output" && b[|b| - 7..] == "-output" && b[..|b| - 7] == name;
  }

  /** The error one key of the object causes, if any. */
  function KeyError(key: string, safelist: seq<Json>): Option<string> {
    if IndexOf(key, "@") == 0 then None
    else
      var name := StripConstraint(CleanName(key));
      if JStr(name) in safelist then None else Some(UnexpectedPrefix + name + "\"")
  }

  /** Keywords never cause an error; any other key does exactly when its name is not safelisted. */
  lemma KeyErrorCases(key: string, safelist: seq<Json>)
    ensures StartsWith(key, "@") ==> KeyError(key, safelist).None?
    ensures !StartsWith(key, "@") ==>
      (KeyError(key, safelist).Some? <==> JStr(StripConstraint(CleanName(key))) !in safelist)
  {
    IndexOfZeroIsPrefix(key, "@");
  }

  /** The error of each key, in key order. */
  function KeyErrorsOf(keys: seq<string>, safelist: seq<Json>): seq<Option<string>> {
    MapKeys(key => KeyError(key, safelist), keys)
  }

  /** `keys.map(f)`. */
  function MapKeys(f: string -> Option<string>, keys: seq<string>): (r: seq<Option<string>>)
    ensures |r| == |keys|
  {
    if |keys| == 0 then [] else MapKeys(f, keys[..|keys| - 1]) + [f(keys[|keys| - 1])]
  }

  lemma {:induction false} MapKeysAt(f: string -> Option<string>, keys: seq<string>)
    ensures forall i :: 0 <= i < |keys| ==> MapKeys(f, keys)[i] == f(keys[i])
  {
    if |keys| > 0 {
      var init := keys[..|keys| - 1];
      MapKeysAt(f, init);
      assert forall i :: 0 <= i < |init| ==> init[i] == keys[i];
    }
  }

  lemma {:induction false} MapKeysAppend(f: string -> Option<string>, a: seq<string>, b: seq<string>)
    ensures MapKeys(f, a + b) == MapKeys(f, a) + MapKeys(f, b)
    decreases |b|
  {
    if |b| > 0 {
      assert (a + b)[..|a + b| - 1] == a + b[..|b| - 1];
      assert (a + b)[|a + b| - 1] == b[|b| - 1];
      MapKeysAppend(f, a, b[..|b| - 1]);
    } else {
      assert a + b == a;
    }
  }

  lemma KeyErrorsOfAt(keys: seq<string>, safelist: seq<Json>)
    ensures |KeyErrorsOf(keys, safelist)| == |keys|
    ensures forall i :: 0 <= i < |keys| ==> KeyErrorsOf(keys, safelist)[i] == KeyError(keys[i], safelist)
  {
    MapKeysAt(key => KeyError(key, safelist), keys);
  }

  /** The present values, in order. */
  function Somes(errs: seq<Option<string>>): seq<string> {
    if |errs| == 0 then []
    else Somes(errs[..|errs| - 1]) + if errs[|errs| - 1].Some? then [errs[|errs| - 1].value] else []
  }

  lemma {:induction false} SomesAppend(a: seq<Option<string>>, b: seq<Option<string>>)
    ensures Somes(a + b) == Somes(a) + Somes(b)
    decreases |b|
  {
    if |b| > 0 {
      assert (a + b)[..|a + b| - 1] == a + b[..|b| - 1];
      SomesAppend(a, b[..|b| - 1]);
    } else {
      assert a + b == a;
    }
  }

  lemma {:induction false} SomesMeans(errs: seq<Option<string>>)
    ensures forall e :: e in Somes(errs) <==> Some(e) in errs
    ensures |Somes(errs)| == 0 <==> forall i :: 0 <= i < |errs| ==> errs[i].None?
    ensures |Somes(errs)| <= |errs|
  {
    if |errs| > 0 {
      var init := errs[..|errs| - 1];
      SomesMeans(init);
      assert errs == init + [errs[|errs| - 1]];
      assert forall i :: 0 <= i < |init| ==> init[i] == errs[i];
    }
  }

  /** The messages of the offending keys, in key order. */
  function UnexpectedKeys(keys: seq<string>, safelist: seq<Json>): seq<string> {
    Somes(KeyErrorsOf(keys, safelist))
  }

  /** The errors of consecutive key lists follow each other. */
  lemma UnexpectedKeysAppend(a: seq<string>, b: seq<string>, safelist: seq<Json>)
    ensures UnexpectedKeys(a + b, safelist) == UnexpectedKeys(a, safelist) + UnexpectedKeys(b, safelist)
  {
    KeyErrorsOfAppend(a, b, safelist);
    SomesAppend(KeyErrorsOf(a, safelist), KeyErrorsOf(b, safelist));
  }

  lemma KeyErrorsOfAppend(a: seq<string>, b: seq<string>, safelist: seq<Json>)
    ensures KeyErrorsOf(a + b, safelist) == KeyErrorsOf(a, safelist) + KeyErrorsOf(b, safelist)
  {
    MapKeysAppend(key => KeyError(key, safelist), a, b);
  }

  /** An error exactly for each offending key, at most one per key. */
  lemma UnexpectedKeysMeans(keys: seq<string>, safelist: seq<Json>)
    ensures forall e :: e in UnexpectedKeys(keys, safelist) <==> exists i :: 0 <= i < |keys| && KeyError(keys[i], safelist) == Some(e)
    ensures |UnexpectedKeys(keys, safelist)| == 0 <==> forall i :: 0 <= i < |keys| ==> KeyError(keys[i], safelist).None?
    ensures |UnexpectedKeys(keys, safelist)| <= |keys|
  {
    var errs := KeyErrorsOf(keys, safelist);
    KeyErrorsOfAt(keys, safelist);
    SomesMeans(errs);
    forall e ensures Some(e) in errs <==> exists i :: 0 <= i < |keys| && KeyError(keys[i], safelist) == Some(e) {
      if Some(e) in errs {
        var i :| 0 <= i < |errs| && errs[i] == Some(e);
        assert KeyError(keys[i], safelist) == Some(e);
      }
    }
  }

  /** `validateObjectKeys(typeOrTypes, keys)`: its error messages, or what it throws. */
  function ObjectKeyErrors(tree: Tree, typeOrTypes: Json, keys: seq<string>, fuel: nat): Result<seq<string>, SchemaError> {
    var types := TypeList(typeOrTypes);
    if types.None? then Success([UnknownValueType])
    else
      var names := StringsOf(types.value);
      if names.None? then Failure(NotAString)
      else
        var unknown := UnknownTypes(tree, names.value);
        if |unknown| > 0 then Success(UnrecognizedErrors(unknown))
        else
          var safelist := Safelist(tree, names.value, fuel);
          if safelist.Failure? then Failure(safelist.error)
          else Success(UnexpectedKeys(keys, safelist.value))
  }

  /** The type names of every non-keyword string type list. */
  lemma {:induction false} NonStringPrefix(types: seq<Json>, n: nat)
    requires n <= |types| && StringsOf(types[..n]).None?
    ensures StringsOf(types).None?
    decreases |types|
  {
    if n < |types| {
      var init := types[..|types| - 1];
      assert init[..n] == types[..n];
      NonStringPrefix(init, n);
    } else {
      assert types[..n] == types;
    }
  }

  /** `types.filter(t => !isKnownType(t))`, also collecting the names; throws on a non-string. */
  method FilterUnknown(tree: Tree, types: seq<Json>) returns (r: Result<(seq<string>, seq<string>), SchemaError>)
    ensures StringsOf(types).None? ==> r == Failure(NotAString)
    ensures StringsOf(types).Some? ==> r == Success((StringsOf(types).value, UnknownTypes(tree, StringsOf(types).value)))
  {
    var names: seq<string> := [];
    var unknownTypes: seq<string> := [];
    var i := 0;
    while i < |types|
      invariant 0 <= i <= |types|
      invariant StringsOf(types[..i]) == Some(names)
      invariant unknownTypes == UnknownTypes(tree, names)
    {
      assert types[..i + 1][..i] == types[..i];
      if !types[i].JStr? {
        NonStringPrefix(types, i + 1);
        return Failure(NotAString);
      }
      var t := types[i].s;
      assert (names + [t])[..|names|] == names;
      if !IsKnownType(tree, t) {
        unknownTypes := unknownTypes + [t];
      }
      names := names + [t];
      i := i + 1;
    }
    assert types[..i] == types;
    return Success((names, unknownTypes));
  }

  /** The `forEach` over the unknown types. */
  method ReportUnknown(unknownTypes: seq<string>) returns (errors: seq<string>)
    ensures errors == UnrecognizedErrors(unknownTypes)
  {
    errors := [];
    var i := 0;
    while i < |unknownTypes|
      invariant 0 <= i <= |unknownTypes|
      invariant errors == UnrecognizedErrors(unknownTypes[..i])
    {
      assert unknownTypes[..i + 1][..i] == unknownTypes[..i];
      if HasSchemaUrl(unknownTypes[i]) {
        errors := errors + [UnrecognizedPrefix + unknownTypes[i]];
      }
      i := i + 1;
    }
    assert unknownTypes[..i] == unknownTypes;
  }

  /** The `forEach` pushing every type's properties onto the safelist. */
  method BuildSafelist(tree: Tree, names: seq<string>, fuel: nat) returns (r: Result<seq<Json>, SchemaError>)
    ensures r == Safelist(tree, names, fuel)
  {
    var safelist: seq<Json> := [];
    var i := 0;
    while i < |names|
      invariant 0 <= i <= |names|
      invariant Safelist(tree, names[..i], fuel) == Success(safelist)
    {
      assert names[..i + 1][..i] == names[..i];
      var knownProps := PropsForType(tree, names[i], fuel);
      if knownProps.Failure? {
        SafelistFailureStays(tree, names, i + 1, fuel);
        return knownProps;
      }
      safelist := safelist + knownProps.value;
      i := i + 1;
    }
    assert names[..i] == names;
    return Success(safelist);
  }

  /** The key pipeline: skip keywords, clean, strip the constraint suffix, report the rest. */
  method CheckKeys(keys: seq<string>, safelist: seq<Json>) returns (errors: seq<string>)
    ensures errors == UnexpectedKeys(keys, safelist)
  {
    errors := [];
    var i := 0;
    while i < |keys|
      invariant 0 <= i <= |keys|
      invariant errors == UnexpectedKeys(keys[..i], safelist)
    {
      assert keys[..i + 1][..i] == keys[..i] && keys[..i + 1][i] == keys[i];
      var key := keys[i];
      if IndexOf(key, "@") != 0 {
        var name := StripConstraint(CleanName(key));
        if JStr(name) !in safelist {
          errors := errors + [UnexpectedPrefix + name + "\""];
        }
      }
      i := i + 1;
    }
    assert keys[..i] == keys;
  }

  /** `validateObjectKeys`. */
  method ValidateObjectKeys(tree: Tree, typeOrTypes: Json, keys: seq<string>, fuel: nat)
    returns (r: Result<seq<string>, SchemaError>)
    ensures r == ObjectKeyErrors(tree, typeOrTypes, keys, fuel)
  {
    var types: seq<Json>;
    if typeOrTypes.JStr? {
      types := [typeOrTypes];
    } else if typeOrTypes.JArr? {
      types := typeOrTypes.items;
    } else {
      return Success([UnknownValueType]);
    }
    var filtered := FilterUnknown(tree, types);
    if filtered.Failure? {
      return Failure(NotAString);
    }
    var (names, unknownTypes) := filtered.value;
    var errors := ReportUnknown(unknownTypes);
    if |unknownTypes| > 0 {
      return Success(errors);
    }
    var safelist := BuildSafelist(tree, names, fuel);
    if safelist.Failure? {
      return Failure(safelist.error);
    }
    errors := CheckKeys(keys, safelist.value);
    return Success(errors);
  }

  /** The text of a key's error. */
  lemma KeyErrorText(key: string, safelist: seq<Json>)
    requires KeyError(key, safelist).Some?
    ensures KeyError(key, safelist).value == UnexpectedPrefix + StripConstraint(CleanName(key)) + "\""
  {
  }

  /** No message of the other two kinds reads 'Unknown value type'. */
  lemma OtherMessagesUnrecognized(unknown: seq<string>)
    ensures UnknownValueType !in UnrecognizedErrors(unknown)
  {
    UnrecognizedErrorsMeans(unknown);
    forall e | e in UnrecognizedErrors(unknown) ensures e != UnknownValueType {
      var i :| 0 <= i < |unknown| && HasSchemaUrl(unknown[i]) && e == UnrecognizedPrefix + unknown[i];
      assert e[2] == 'r';
    }
  }

  lemma OtherMessagesUnexpected(keys: seq<string>, safelist: seq<Json>)
    ensures forall e :: e in UnexpectedKeys(keys, safelist) ==> |e| > 2 && e[2] == 'e'
  {
    var errs := KeyErrorsOf(keys, safelist);
    KeyErrorsOfText(keys, safelist);
    SomesThirdChar(errs, 'e');
  }

  /** Every key error has 'e' as its third character, as "Unexpected" does. */
  lemma KeyErrorsOfText(keys: seq<string>, safelist: seq<Json>)
    ensures forall i :: 0 <= i < |keys| && KeyErrorsOf(keys, safelist)[i].Some? ==>
      |KeyErrorsOf(keys, safelist)[i].value| > 2 && KeyErrorsOf(keys, safelist)[i].value[2] == 'e'
  {
    KeyErrorsOfAt(keys, safelist);
    forall i | 0 <= i < |keys| && KeyErrorsOf(keys, safelist)[i].Some?
      ensures |KeyErrorsOf(keys, safelist)[i].value| > 2 && KeyErrorsOf(keys, safelist)[i].value[2] == 'e'
    {
      KeyErrorText(keys[i], safelist);
    }
  }

  lemma {:induction false} SomesThirdChar(errs: seq<Option<string>>, c: char)
    requires forall i :: 0 <= i < |errs| && errs[i].Some? ==> |errs[i].value| > 2 && errs[i].value[2] == c
    ensures forall e :: e in Somes(errs) ==> |e| > 2 && e[2] == c
  {
    if |errs| > 0 {
      var init := errs[..|errs| - 1];
      assert forall i :: 0 <= i < |init| ==> init[i] == errs[i];
      SomesThirdChar(init, c);
    }
  }

  /** A `@type` value that is neither a string nor an array gives exactly 'Unknown value type'. */
  lemma UnknownValueTypeExactly(tree: Tree, typeOrTypes: Json, keys: seq<string>, fuel: nat)
    ensures ObjectKeyErrors(tree, typeOrTypes, keys, fuel) == Success([UnknownValueType]) <==>
      !typeOrTypes.JStr? && !typeOrTypes.JArr?
  {
    if typeOrTypes.JStr? || typeOrTypes.JArr? {
      var names := StringsOf(TypeList(typeOrTypes).value);
      if names.Some? {
        var unknown := UnknownTypes(tree, names.value);
        if |unknown| > 0 {
          UnrecognizedNotUnknownValue(unknown);
        } else {
          var safelist := Safelist(tree, names.value, fuel);
          if safelist.Success? {
            UnexpectedNotUnknownValue(keys, safelist.value);
          }
        }
      }
    }
  }

  lemma UnrecognizedNotUnknownValue(unknown: seq<string>)
    ensures UnrecognizedErrors(unknown) != [UnknownValueType]
  {
    OtherMessagesUnrecognized(unknown);
    assert UnknownValueType in [UnknownValueType];
  }

  lemma UnexpectedNotUnknownValue(keys: seq<string>, safelist: seq<Json>)
    ensures UnexpectedKeys(keys, safelist) != [UnknownValueType]
  {
    OtherMessagesUnexpected(keys, safelist);
    assert UnknownValueType in [UnknownValueType];
    assert UnknownValueType[2] == 'k';
  }

  /** A type value that is no string makes `cleanName` throw. */
  lemma NonStringTypeThrows(tree: Tree, typeOrTypes: Json, keys: seq<string>, fuel: nat)
    requires typeOrTypes.JArr? && exists i :: 0 <= i < |typeOrTypes.items| && !typeOrTypes.items[i].JStr?
    ensures ObjectKeyErrors(tree, typeOrTypes, keys, fuel) == Failure(NotAString)
  {
    StringsOfMeans(typeOrTypes.items);
  }

  /**
   * With an unknown type, the keys are not looked at: the result is one error per unknown
   * type on the schema.org address, whatever the keys.
   */
  lemma UnknownTypeSkipsKeys(tree: Tree, typeOrTypes: Json, keys: seq<string>, otherKeys: seq<string>, fuel: nat)
    requires TypeList(typeOrTypes).Some? && StringsOf(TypeList(typeOrTypes).value).Some?
    requires exists i :: (0 <= i < |StringsOf(TypeList(typeOrTypes).value).value| &&
      !IsKnownType(tree, StringsOf(TypeList(typeOrTypes).value).value[i]))
    ensures ObjectKeyErrors(tree, typeOrTypes, keys, fuel) == ObjectKeyErrors(tree, typeOrTypes, otherKeys, fuel)
    ensures ObjectKeyErrors(tree, typeOrTypes, keys, fuel) ==
      Success(UnrecognizedErrors(UnknownTypes(tree, StringsOf(TypeList(typeOrTypes).value).value)))
  {
    UnknownTypesMeans(tree, StringsOf(TypeList(typeOrTypes).value).value);
  }

  /**
   * With every type known, each error names a key that is no keyword and whose cleaned,
   * unconstrained name no type in scope or ancestor of one declares, and each such key
   * has its error.
   */
  lemma KnownTypesCheckKeys(tree: Tree, typeOrTypes: Json, keys: seq<string>, fuel: nat)
    requires TypeList(typeOrTypes).Some? && StringsOf(TypeList(typeOrTypes).value).Some?
    requires forall i :: 0 <= i < |StringsOf(TypeList(typeOrTypes).value).value| ==>
      IsKnownType(tree, StringsOf(TypeList(typeOrTypes).value).value[i])
    requires Safelist(tree, StringsOf(TypeList(typeOrTypes).value).value, fuel).Success?
    ensures ObjectKeyErrors(tree, typeOrTypes, keys, fuel).Success?
    ensures var names := StringsOf(TypeList(typeOrTypes).value).value;
      forall e :: e in ObjectKeyErrors(tree, typeOrTypes, keys, fuel).value <==>
        exists k :: 0 <= k < |keys| && !StartsWith(keys[k], "@") &&
          e == UnexpectedPrefix + StripConstraint(CleanName(keys[k])) + "\"" &&
          !(exists i, u :: 0 <= i < |names| && Reachable(tree, names[i], u, fuel) &&
             Declares(tree, u, JStr(StripConstraint(CleanName(keys[k])))))
  {
    var names := StringsOf(TypeList(typeOrTypes).value).value;
    UnknownTypesMeans(tree, names);
    var safelist := Safelist(tree, names, fuel).value;
    assert ObjectKeyErrors(tree, typeOrTypes, keys, fuel) == Success(UnexpectedKeys(keys, safelist));
    UnexpectedKeysMeans(keys, safelist);
    forall k | 0 <= k < |keys| {
      KeyErrorAgainstSafelist(tree, names, keys[k], fuel);
    }
  }

  /** One key against the safelist of some types: an error exactly when nothing reachable declares it. */
  lemma KeyErrorAgainstSafelist(tree: Tree, names: seq<string>, key: string, fuel: nat)
    requires Safelist(tree, names, fuel).Success?
    ensures var name := StripConstraint(CleanName(key));
      KeyError(key, Safelist(tree, names, fuel).value).Some? <==>
        !StartsWith(key, "@") &&
        !(exists i, u :: 0 <= i < |names| && Reachable(tree, names[i], u, fuel) && Declares(tree, u, JStr(name)))
    ensures KeyError(key, Safelist(tree, names, fuel).value).Some? ==>
      KeyError(key, Safelist(tree, names, fuel).value).value == UnexpectedPrefix + StripConstraint(CleanName(key)) + "\""
  {
    SafelistMembers(tree, names, fuel);
    KeyErrorCases(key, Safelist(tree, names, fuel).value);
  }
}
