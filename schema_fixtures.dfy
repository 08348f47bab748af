/**
 * The cases of sd-validation/test/schema-org-validation-test.js, on the expanded form the
 * JSON-LD expansion gives them (every name on the address of its context, the http
 * schema.org address or the activitystreams one, and `@type` values as arrays), against
 * an excerpt of the schema.org tree: Thing, CreativeWork under Thing and Article under
 * CreativeWork, with `author` and `headline` declared on CreativeWork and `image` on
 * Thing. Of the article's properties the excerpt keeps those three; the others behave
 * as they do.
 */
module SchemaFixtures {
  import opened Wrappers
  import opened JsString
  import opened Json
  import opened Walk
  import opened SchemaTree
  import opened Schema
  import opened SchemaOrg

  function FixtureTree(): Tree {
    Tree(
      [Entry(JStr("Thing"), []), Entry(JStr("CreativeWork"), ["Thing"]), Entry(JStr("Article"), ["CreativeWork"])],
      [Entry(JStr("author"), ["CreativeWork"]), Entry(JStr("headline"), ["CreativeWork"]), Entry(JStr("image"), ["Thing"])])
  }

  /** Enough recursion for the three-level excerpt. */
  const Depth := 3

  /** A schema.org name in expanded form. */
  function Expanded(x: string): string {
    SchemaPrefix + x
  }

  /** A type entry makes the expanded form of its name known. */
  lemma EntryKnown(tree: Tree, x: string, i: nat)
    requires i < |tree.types| && tree.types[i].name == JStr(x)
    ensures IsKnownType(tree, Expanded(x))
  {
    CleanNameOfUrl(x);
    KnownTypeMeans(tree, Expanded(x));
  }

  lemma ArticleKnown()
    ensures IsKnownType(FixtureTree(), Expanded("Article"))
  {
    EntryKnown(FixtureTree(), "Article", 2);
  }

  lemma CatUnknown()
    ensures !IsKnownType(FixtureTree(), Expanded("Cat")) && HasSchemaUrl(Expanded("Cat"))
  {
    CleanNameOfUrl("Cat");
  }

  lemma DogUnknown()
    ensures !IsKnownType(FixtureTree(), Expanded("Dog")) && HasSchemaUrl(Expanded("Dog"))
  {
    CleanNameOfUrl("Dog");
  }

  lemma ThingProps()
    ensures PropsForType(FixtureTree(), "Thing", 1) == Success([JStr("image")])
  {
    var tree := FixtureTree();
    ShortNameHasNoUrl("Thing");
    assert FindType(tree, "Thing") == Some(tree.types[0]);
    PropsThroughParents(tree, "Thing", 1);
    assert ParentsProps(tree, [], 0) == Success([]);
    assert OwnProps(tree.properties, CleanName("Thing")) == [JStr("image")];
    assert [JStr("image")] + [] == [JStr("image")];
  }

  /** The parents' result of a single parent is that parent's result. */
  lemma OneParent(tree: Tree, parent: string, fuel: nat)
    requires PropsForType(tree, parent, fuel).Success?
    ensures ParentsProps(tree, [parent], fuel) == PropsForType(tree, parent, fuel)
  {
    assert [parent][1..] == [];
    assert PropsForType(tree, parent, fuel).value + [] == PropsForType(tree, parent, fuel).value;
  }

  lemma CreativeWorkProps()
    ensures PropsForType(FixtureTree(), "CreativeWork", 2) == Success([JStr("author"), JStr("headline"), JStr("image")])
  {
    var tree := FixtureTree();
    ShortNameHasNoUrl("CreativeWork");
    assert FindType(tree, "CreativeWork") == Some(tree.types[1]);
    PropsThroughParents(tree, "CreativeWork", 2);
    ThingProps();
    OneParent(tree, "Thing", 1);
    assert OwnProps(tree.properties, CleanName("CreativeWork")) == [JStr("author"), JStr("headline")];
    assert [JStr("author"), JStr("headline")] + [JStr("image")] == [JStr("author"), JStr("headline"), JStr("image")];
  }

  /** An article may carry the properties of CreativeWork and of Thing. */
  lemma ArticleProps()
    ensures PropsForType(FixtureTree(), Expanded("Article"), Depth) == Success([JStr("author"), JStr("headline"), JStr("image")])
  {
    var tree := FixtureTree();
    CleanNameOfUrl("Article");
    assert FindType(tree, Expanded("Article")) == Some(tree.types[2]);
    PropsThroughParents(tree, Expanded("Article"), Depth);
    CreativeWorkProps();
    OneParent(tree, "CreativeWork", 2);
    assert OwnProps(tree.properties, CleanName(Expanded("Article"))) == [];
    assert [] + [JStr("author"), JStr("headline"), JStr("image")] == [JStr("author"), JStr("headline"), JStr("image")];
  }

  /** One unknown type: its error when it is on the schema.org address, else none, whatever the keys. */
  lemma OneUnknownType(tree: Tree, t: string, keys: seq<string>, fuel: nat)
    requires !IsKnownType(tree, t)
    ensures ObjectKeyErrors(tree, JArr([JStr(t)]), keys, fuel) ==
      Success(if HasSchemaUrl(t) then [UnrecognizedPrefix + t] else [])
  {
    OneTypeNames(t);
    var names := [t];
    assert names[..0] == [] && names[0] == t;
    assert UnknownTypes(tree, names) == [] + names == names;
    UnrecognizedOne(t);
  }

  /** A single type's list of names. */
  lemma OneTypeNames(t: string)
    ensures TypeList(JArr([JStr(t)])) == Some([JStr(t)])
    ensures StringsOf([JStr(t)]) == Some([t])
  {
    assert [JStr(t)][..0] == [] && [JStr(t)][0] == JStr(t);
    assert StringsOf([JStr(t)]) == Some([] + [t]);
    assert [] + [t] == [t];
  }

  /** A known type followed by an unknown one: only the unknown one counts. */
  lemma KnownThenUnknown(tree: Tree, a: string, b: string, keys: seq<string>, fuel: nat)
    requires IsKnownType(tree, a) && !IsKnownType(tree, b) && HasSchemaUrl(b)
    ensures ObjectKeyErrors(tree, JArr([JStr(a), JStr(b)]), keys, fuel) == Success([UnrecognizedPrefix + b])
  {
    var types, names := [JStr(a), JStr(b)], [a, b];
    OneTypeNames(a);
    assert types[..1] == [JStr(a)] && types[1] == JStr(b);
    assert StringsOf(types) == Some([a] + [b]);
    assert [a] + [b] == names;
    assert names[..1] == [a] && names[..1][..0] == [] && names[1] == b;
    assert UnknownTypes(tree, names[..1]) == [] + [] == [];
    assert UnknownTypes(tree, names) == [] + [b] == [b];
    UnrecognizedOne(b);
  }

  /** One known type with a safelist: the errors are those of the key check. */
  lemma OneKnownType(tree: Tree, t: string, keys: seq<string>, fuel: nat)
    requires IsKnownType(tree, t) && PropsForType(tree, t, fuel).Success?
    ensures ObjectKeyErrors(tree, JArr([JStr(t)]), keys, fuel) == Success(UnexpectedKeys(keys, PropsForType(tree, t, fuel).value))
  {
    OneTypeNames(t);
    var names := [t];
    var props := PropsForType(tree, t, fuel).value;
    assert names[..0] == [] && names[0] == t;
    assert UnknownTypes(tree, names) == [] + [] == [];
    assert Safelist(tree, names, fuel) == Success([] + props);
    assert [] + props == props;
  }

  /** "reports unknown types". */
  lemma ReportsUnknownType()
    ensures ObjectKeyErrors(FixtureTree(), JArr([JStr(Expanded("Cat"))]), ["@type"], Depth) ==
      Success([UnrecognizedPrefix + Expanded("Cat")])
  {
    CatUnknown();
    OneUnknownType(FixtureTree(), Expanded("Cat"), ["@type"], Depth);
  }

  /** "reports unknown types for objects with multiple types": only Dog. */
  lemma ReportsUnknownAmongTypes()
    ensures ObjectKeyErrors(FixtureTree(), JArr([JStr(Expanded("Article")), JStr(Expanded("Dog"))]), ["@type"], Depth) ==
      Success([UnrecognizedPrefix + Expanded("Dog")])
  {
    ArticleKnown();
    DogUnknown();
    KnownThenUnknown(FixtureTree(), Expanded("Article"), Expanded("Dog"), ["@type"], Depth);
  }

  /** The article's safelist. */
  function ArticleSafelist(): seq<Json> {
    [JStr("author"), JStr("headline"), JStr("image")]
  }

  /** A declared property passes the key check. */
  lemma DeclaredKeyPasses(x: string)
    requires x in ["author", "headline", "image"]
    ensures KeyError(Expanded(x), ArticleSafelist()).None?
  {
    CleanNameOfUrl(x);
    KeyErrorCases(Expanded(x), ArticleSafelist());
    assert !EndsWith(x, "-input") && !EndsWith(x, "-output");
    StripConstraintCases(x);
  }

  /** Keys that each pass give no errors. */
  lemma PassingKeys(keys: seq<string>, safelist: seq<Json>)
    requires forall i :: 0 <= i < |keys| ==> KeyError(keys[i], safelist).None?
    ensures UnexpectedKeys(keys, safelist) == []
  {
    UnexpectedKeysMeans(keys, safelist);
  }

  /** The article's keys in expanded form. */
  function ArticleKeys(): seq<string> {
    ["@type", Expanded("author"), Expanded("headline"), Expanded("image")]
  }

  /** Four keys that each pass give no errors. */
  lemma FourKeysPass(k0: string, k1: string, k2: string, k3: string, safelist: seq<Json>)
    requires KeyError(k0, safelist).None? && KeyError(k1, safelist).None?
    requires KeyError(k2, safelist).None? && KeyError(k3, safelist).None?
    ensures UnexpectedKeys([k0, k1, k2, k3], safelist) == []
  {
    var keys := [k0, k1, k2, k3];
    forall i | 0 <= i < |keys| ensures KeyError(keys[i], safelist).None? {
      if i == 0 {
        assert keys[i] == k0;
      } else if i == 1 {
        assert keys[i] == k1;
      } else if i == 2 {
        assert keys[i] == k2;
      } else {
        assert keys[i] == k3;
      }
    }
    PassingKeys(keys, safelist);
  }

  /** With only declared properties, an article has no unexpected key. */
  lemma ArticleKeysPass()
    ensures UnexpectedKeys(ArticleKeys(), ArticleSafelist()) == []
  {
    KeyErrorCases("@type", ArticleSafelist());
    DeclaredKeyPasses("author");
    DeclaredKeyPasses("headline");
    DeclaredKeyPasses("image");
    FourKeysPass("@type", Expanded("author"), Expanded("headline"), Expanded("image"), ArticleSafelist());
  }

  /** "passes if everything is OK". */
  lemma EverythingOk()
    ensures ObjectKeyErrors(FixtureTree(), JArr([JStr(Expanded("Article"))]), ArticleKeys(), Depth) == Success([])
  {
    ArticleKnown();
    ArticleProps();
    ArticleKeysPass();
    OneKnownType(FixtureTree(), Expanded("Article"), ArticleKeys(), Depth);
  }

  /** One key off the safelist after passing ones: exactly its error. */
  lemma OneBadKey(keys: seq<string>, key: string, safelist: seq<Json>)
    requires UnexpectedKeys(keys, safelist) == [] && KeyError(key, safelist).Some?
    ensures UnexpectedKeys(keys + [key], safelist) == [KeyError(key, safelist).value]
  {
    UnexpectedKeysAppend(keys, [key], safelist);
    assert [key][..0] == [] && [key][0] == key;
    KeyErrorsOfAt([key], safelist);
    var errs := KeyErrorsOf([key], safelist);
    assert errs == [KeyError(key, safelist)];
    assert errs[..0] == [];
    assert Somes(errs) == [] + [KeyError(key, safelist).value];
  }

  /** An expanded key whose name is off the safelist and has no constraint suffix: its error. */
  lemma UndeclaredKeyError(x: string, safelist: seq<Json>)
    requires JStr(x) !in safelist && !EndsWith(x, "-input") && !EndsWith(x, "-output")
    ensures KeyError(Expanded(x), safelist) == Some(UnexpectedPrefix + x + "\"")
  {
    CleanNameOfUrl(x);
    assert Expanded(x)[0] == 'h';
    KeyErrorCases(Expanded(x), safelist);
    StripConstraintCases(x);
    KeyErrorText(Expanded(x), safelist);
  }

  /** `controversial` is no property of an article. */
  lemma ControversialError()
    ensures KeyError(Expanded("controversial"), ArticleSafelist()) == Some(UnexpectedPrefix + "controversial" + "\"")
  {
    var x := "controversial";
    assert x[7..] != "-input" by {
      assert x[7..][0] == 'e';
    }
    assert x[6..] != "-output" by {
      assert x[6..][0] == 'v';
    }
    UndeclaredKeyError(x, ArticleSafelist());
  }

  /** "reports unexpected fields": 'Unexpected property "controversial"'. */
  lemma ReportsUnexpectedField()
    ensures ObjectKeyErrors(FixtureTree(), JArr([JStr(Expanded("Article"))]), ArticleKeys() + [Expanded("controversial")], Depth) ==
      Success([UnexpectedPrefix + "controversial" + "\""])
  {
    ArticleKnown();
    ArticleProps();
    ArticleKeysPass();
    ControversialError();
    OneBadKey(ArticleKeys(), Expanded("controversial"), ArticleSafelist());
    OneKnownType(FixtureTree(), Expanded("Article"), ArticleKeys() + [Expanded("controversial")], Depth);
  }

  /** The expanded `@type` of the activitystreams case. */
  const CreateType := "https://www.w3.org/ns/activitystreams#Create"

  /** Where the address occurs, an 'h' starts it and an 's' follows its "//". */
  lemma UrlAtChars(s: string, j: int)
    ensures UrlAt(s, j) ==> s[j] == 'h' && (s[j + 7] == 's' || s[j + 8] == 's')
  {
    if OccursAt(s, SchemaPrefix, j) {
      assert s[j..j + |SchemaPrefix|][0] == s[j] && s[j..j + |SchemaPrefix|][7] == s[j + 7];
    } else if OccursAt(s, HttpsPrefix, j) {
      assert s[j..j + |HttpsPrefix|][0] == s[j] && s[j..j + |HttpsPrefix|][8] == s[j + 8];
    }
  }

  /** A string whose only 'h' is its first character, and that does not start with the address. */
  lemma NoUrlPastHead(s: string)
    requires |s| > 8 && s[7] != 's' && s[8] != 's'
    requires forall m :: 1 <= m < |s| ==> s[m] != 'h'
    ensures !HasSchemaUrl(s) && CleanName(s) == s
  {
    forall j ensures !UrlAt(s, j) {
      UrlAtChars(s, j);
    }
    HasSchemaUrlMeans(s);
    CleanNameUnchanged(s);
  }

  lemma CreateHasNoUrl()
    ensures !HasSchemaUrl(CreateType) && CleanName(CreateType) == CreateType
  {
    var s := CreateType;
    assert |s| > 8 && s[7] != 's' && s[8] != 's';
    assert forall m :: 1 <= m < |s| ==> s[m] != 'h';
    NoUrlPastHead(s);
  }

  /**
   * "passes if non-schema.org context": the activitystreams type is unknown but, being off
   * the schema.org address, not reported, whatever the keys.
   */
  lemma CreatePasses(keys: seq<string>)
    ensures ObjectKeyErrors(FixtureTree(), JArr([JStr(CreateType)]), keys, Depth) == Success([])
  {
    CreateHasNoUrl();
    KnownTypeMeans(FixtureTree(), CreateType);
    assert !IsKnownType(FixtureTree(), CreateType);
    OneUnknownType(FixtureTree(), CreateType, keys, Depth);
  }

  /** The root object of the unknown-type case. */
  function CatObject(): Json {
    JObj([("@type", JArr([JStr(Expanded("Cat"))]))])
  }

  /** End to end: one error, at the root path, naming the type. */
  lemma CatReportedAtRoot()
    ensures SchemaOrgErrors(Checker(FixtureTree(), Depth), [Visit("@type", JArr([JStr(Expanded("Cat"))]), ["@type"], CatObject())]) ==
      Success([ValidationError("/", UnrecognizedPrefix + Expanded("Cat"))])
  {
    var v := Visit("@type", JArr([JStr(Expanded("Cat"))]), ["@type"], CatObject());
    var check := Checker(FixtureTree(), Depth);
    assert OwnKeys(CatObject()) == ["@type"];
    ReportsUnknownType();
    assert check(v.value, OwnKeys(v.holder)) == Success([UnrecognizedPrefix + Expanded("Cat")]);
    ErrorPaths("");
    assert ErrorsAt("/", [UnrecognizedPrefix + Expanded("Cat")]) == [ValidationError("/", UnrecognizedPrefix + Expanded("Cat"))];
    assert VisitErrors(check, v) == Success([ValidationError("/", UnrecognizedPrefix + Expanded("Cat"))]);
    SingleVisit(check, v);
  }
}
