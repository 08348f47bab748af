/**
 * `validateSchemaOrg`, the exported function of sd-validation/schema.js: a null input
 * has no errors; a one-element array stands for its element; every `@type` key the
 * traversal reaches has the keys of its object checked, and each message becomes an
 * error at the path of that object, with the schema.org address cleaned off every
 * segment. A throw inside the check ends the whole validation, as a Failure here.
 */
module SchemaOrg {
  import opened Wrappers
  import opened JsString
  import opened Json
  import opened Walk
  import opened SchemaTree
  import opened Schema

  const TypeKeyword := "@type"

  /** `path.map(cleanName)`. */
  function CleanAll(parts: seq<string>): seq<string> {
    seq(|parts|, i requires 0 <= i < |parts| => CleanName(parts[i]))
  }

  /** `'/' + path.slice(0, -1).map(cleanName).join('/')`: the path of the object holding the key. */
  function ErrorPath(path: seq<string>): string {
    "/" + Join(CleanAll(if |path| == 0 then [] else path[..|path| - 1]), "/")
  }

  /** One error per message, all at the same path. */
  function ErrorsAt(path: string, messages: seq<string>): seq<ValidationError> {
    seq(|messages|, i requires 0 <= i < |messages| => ValidationError(path, messages[i]))
  }

  /** `if (expandedObj.length === 1) expandedObj = expandedObj[0]`. */
  function Unwrap(v: Json): Json {
    if v.JArr? && |v.items| == 1 then v.items[0] else v
  }

  /** A check of one object's keys given its `@type` value: `validateObjectKeys` against a tree. */
  type KeyCheck = (Json, seq<string>) -> Result<seq<string>, SchemaError>

  function Checker(tree: Tree, fuel: nat): KeyCheck {
    (typeOrTypes, keys) => ObjectKeyErrors(tree, typeOrTypes, keys, fuel)
  }

  /** What the callback adds for one visit: nothing unless the key is `@type`. */
  function VisitErrors(check: KeyCheck, v: Visit): Result<seq<ValidationError>, SchemaError> {
    if v.name != TypeKeyword then Success([])
    else
      var keyErrors := check(v.value, OwnKeys(v.holder));
      if keyErrors.Failure? then Failure(keyErrors.error)
      else Success(ErrorsAt(ErrorPath(v.path), keyErrors.value))
  }

  /** The errors the callback collects over the visits, or the first throw. */
  function SchemaOrgErrors(check: KeyCheck, visits: seq<Visit>): Result<seq<ValidationError>, SchemaError> {
    if |visits| == 0 then Success([])
    else
      var init := SchemaOrgErrors(check, visits[..|visits| - 1]);
      if init.Failure? then init
      else
        var here := VisitErrors(check, visits[|visits| - 1]);
        if here.Failure? then here else Success(init.value + here.value)
  }

  /** What `validateSchemaOrg(expandedObj)` returns or throws, for a given traversal. */
  function SchemaOrgResult(tree: Tree, expandedObj: Json, walk: Walker, fuel: nat): Result<seq<ValidationError>, SchemaError> {
    if expandedObj.JNull? then Success([]) else SchemaOrgErrors(Checker(tree, fuel), walk(Unwrap(expandedObj)))
  }

  /** The `@type` visit's messages pushed one by one. */
  method PushErrors(errors: seq<ValidationError>, path: string, messages: seq<string>) returns (r: seq<ValidationError>)
    ensures r == errors + ErrorsAt(path, messages)
  {
    r := errors;
    var j := 0;
    while j < |messages|
      invariant 0 <= j <= |messages|
      invariant r == errors + ErrorsAt(path, messages[..j])
    {
      assert ErrorsAt(path, messages[..j + 1]) == ErrorsAt(path, messages[..j]) + [ValidationError(path, messages[j])];
      r := r + [ValidationError(path, messages[j])];
      j := j + 1;
    }
    assert messages[..j] == messages;
  }

  /** The `walkObject` callback over every visit in turn. */
  method CollectErrors(tree: Tree, visits: seq<Visit>, fuel: nat) returns (r: Result<seq<ValidationError>, SchemaError>)
    ensures r == SchemaOrgErrors(Checker(tree, fuel), visits)
  {
    var check := Checker(tree, fuel);
    var errors: seq<ValidationError> := [];
    var i := 0;
    while i < |visits|
      invariant 0 <= i <= |visits|
      invariant SchemaOrgErrors(check, visits[..i]) == Success(errors)
    {
      assert visits[..i + 1][..i] == visits[..i] && visits[..i + 1][i] == visits[i];
      var v := visits[i];
      if v.name == TypeKeyword {
        var keyErrors := ValidateObjectKeys(tree, v.value, OwnKeys(v.holder), fuel);
        assert keyErrors == check(v.value, OwnKeys(v.holder));
        if keyErrors.Failure? {
          SchemaOrgFailureStays(check, visits, i + 1);
          return Failure(keyErrors.error);
        }
        errors := PushErrors(errors, ErrorPath(v.path), keyErrors.value);
      } else {
        assert errors + [] == errors;
      }
      i := i + 1;
    }
    assert visits[..i] == visits;
    return Success(errors);
  }

  /** `validateSchemaOrg`. */
  method ValidateSchemaOrg(tree: Tree, expandedObj: Json, walk: Walker, fuel: nat)
    returns (r: Result<seq<ValidationError>, SchemaError>)
    ensures r == SchemaOrgResult(tree, expandedObj, walk, fuel)
  {
    if expandedObj.JNull? {
      return Success([]);
    }
    var root := expandedObj;
    if root.JArr? && |root.items| == 1 {
      root := root.items[0];
    }
    r := CollectErrors(tree, walk(root), fuel);
  }

  /** A throw at some visit is the result of the whole traversal. */
  lemma {:induction false} SchemaOrgFailureStays(check: KeyCheck, visits: seq<Visit>, n: nat)
    requires n <= |visits| && SchemaOrgErrors(check, visits[..n]).Failure?
    ensures SchemaOrgErrors(check, visits) == SchemaOrgErrors(check, visits[..n])
    decreases |visits|
  {
    if n < |visits| {
      var init := visits[..|visits| - 1];
      assert init[..n] == visits[..n];
      SchemaOrgFailureStays(check, init, n);
    } else {
      assert visits[..n] == visits;
    }
  }

  /** A `@type` visit whose check throws. */
  predicate Throws(check: KeyCheck, v: Visit) {
    v.name == TypeKeyword && check(v.value, OwnKeys(v.holder)).Failure?
  }

  /**
   * The validation throws exactly when the check of some `@type` visit throws; otherwise
   * each error is a message of one `@type` visit's check at that visit's object path, and
   * every such message is reported.
   */
  lemma {:induction false} SchemaOrgErrorsMeans(check: KeyCheck, visits: seq<Visit>)
    ensures SchemaOrgErrors(check, visits).Failure? <==> exists i :: 0 <= i < |visits| && Throws(check, visits[i])
    ensures SchemaOrgErrors(check, visits).Success? ==>
      forall e :: e in SchemaOrgErrors(check, visits).value <==>
        exists i :: 0 <= i < |visits| && visits[i].name == TypeKeyword &&
          check(visits[i].value, OwnKeys(visits[i].holder)).Success? &&
          e.path == ErrorPath(visits[i].path) &&
          e.message in check(visits[i].value, OwnKeys(visits[i].holder)).value
  {
    if |visits| > 0 {
      var init := visits[..|visits| - 1];
      var v := visits[|visits| - 1];
      SchemaOrgErrorsMeans(check, init);
      assert forall i :: 0 <= i < |init| ==> init[i] == visits[i];
      if SchemaOrgErrors(check, visits).Success? && v.name == TypeKeyword {
        var messages := check(v.value, OwnKeys(v.holder)).value;
        var path := ErrorPath(v.path);
        forall e ensures e in ErrorsAt(path, messages) <==> e.path == path && e.message in messages {
          if e.path == path && e.message in messages {
            var j :| 0 <= j < |messages| && messages[j] == e.message;
            assert ErrorsAt(path, messages)[j] == e;
          }
        }
      }
    }
  }

  /** A traversal of one visit reports what that visit adds. */
  lemma SingleVisit(check: KeyCheck, v: Visit)
    ensures SchemaOrgErrors(check, [v]) == VisitErrors(check, v)
  {
    assert [v][..0] == [] && [v][0] == v;
    if VisitErrors(check, v).Success? {
      assert [] + VisitErrors(check, v).value == VisitErrors(check, v).value;
    }
  }

  /** A traversal that reaches no `@type` key reports nothing. */
  lemma {:induction false} NoTypeNoErrors(check: KeyCheck, visits: seq<Visit>)
    requires forall i :: 0 <= i < |visits| ==> visits[i].name != TypeKeyword
    ensures SchemaOrgErrors(check, visits) == Success([])
  {
    if |visits| > 0 {
      var init := visits[..|visits| - 1];
      assert forall i :: 0 <= i < |init| ==> init[i] == visits[i];
      NoTypeNoErrors(check, init);
      assert VisitErrors(check, visits[|visits| - 1]) == Success([]);
      var none: seq<ValidationError> := [];
      assert none + none == none;
    }
  }

  /** The root object's errors are at "/", and a nested object's path has its address removed. */
  lemma ErrorPaths(x: string)
    ensures ErrorPath([TypeKeyword]) == "/"
    ensures ErrorPath([SchemaPrefix + x, TypeKeyword]) == "/" + x
  {
    assert [TypeKeyword][..0] == [];
    assert [SchemaPrefix + x, TypeKeyword][..1] == [SchemaPrefix + x];
    CleanNameOfUrl(x);
  }

  /** `null` is valid, and a one-element array is validated as its element. */
  lemma UnwrapsSingleton(tree: Tree, v: Json, walk: Walker, fuel: nat)
    ensures SchemaOrgResult(tree, JNull, walk, fuel) == Success([])
    ensures !v.JNull? && !v.JArr? ==> SchemaOrgResult(tree, JArr([v]), walk, fuel) == SchemaOrgResult(tree, v, walk, fuel)
  {
  }
}
