/**
 * The JSON-LD keyword check of sd-validation/jsonld.js: every key reached by the
 * traversal that starts with '@' must be one of the keywords the code lists.
 */
module JsonLd {
  import opened Wrappers
  import opened JsString
  import opened Json
  import opened Walk

  /**
   * The seventeen keywords the code lists, taken from the JSON-LD 1.1 draft of their time; the
   * Recommendation's section 1.7 adds @direction, @import, @included, @json, @propagate
   * and @protected, which this check reports as unknown.
   */
  const Keywords: seq<string> := [
    "@base", "@container", "@context", "@graph", "@id", "@index", "@language", "@list",
    "@nest", "@none", "@prefix", "@reverse", "@set", "@type", "@value", "@version", "@vocab"
  ]

  const UnknownKeyword := "Unknown keyword"

  predicate ValidKeyword(fieldName: string) {
    fieldName in Keywords
  }

  /** Seventeen distinct keywords, each starting with '@'. */
  lemma KeywordsShape()
    ensures |Keywords| == 17
    ensures forall i, j :: 0 <= i < j < |Keywords| ==> Keywords[i] != Keywords[j]
    ensures forall k :: ValidKeyword(k) ==> |k| > 0 && k[0] == '@'
  {
  }

  /** The error for one key: an '@'-key that is no keyword. JavaScript's `""[0]` is undefined. */
  function ValidateKey(keyName: string): (r: Option<string>)
    ensures r == Some(UnknownKeyword) <==> |keyName| > 0 && keyName[0] == '@' && !ValidKeyword(keyName)
    ensures r.None? || r == Some(UnknownKeyword)
  {
    if |keyName| > 0 && keyName[0] == '@' && !ValidKeyword(keyName) then Some(UnknownKeyword) else None
  }

  /** A key is flagged exactly when it starts with '@' and is no keyword; other keys never are. */
  lemma ValidateKeyCases(keyName: string)
    ensures !StartsWith(keyName, "@") ==> ValidateKey(keyName).None?
    ensures ValidKeyword(keyName) ==> ValidateKey(keyName).None?
    ensures StartsWith(keyName, "@") && !ValidKeyword(keyName) ==> ValidateKey(keyName) == Some(UnknownKeyword)
  {
    if |keyName| > 0 {
      assert StartsWith(keyName, "@") <==> keyName[0] == '@' by {
        assert keyName[..1] == [keyName[0]];
      }
    }
  }

  /** The errors the callback pushes over a list of visits, in visit order. */
  function KeyErrors(visits: seq<Visit>): seq<ValidationError> {
    if |visits| == 0 then []
    else
      var v := visits[|visits| - 1];
      KeyErrors(visits[..|visits| - 1]) +
        match ValidateKey(v.name)
        case None => []
        case Some(e) => [ValidationError(Join(v.path, "/"), e)]
  }

  /** `validateJsonLD`: walk the value and collect an error per offending key. */
  method ValidateJsonLD(json: Json, walk: Walker) returns (errors: seq<ValidationError>)
    ensures errors == KeyErrors(walk(json))
  {
    var visits := walk(json);
    errors := [];
    var i := 0;
    while i < |visits|
      invariant 0 <= i <= |visits|
      invariant errors == KeyErrors(visits[..i])
    {
      var v := visits[i];
      assert visits[..i + 1][..i] == visits[..i];
      var error := ValidateKey(v.name);
      if error.Some? {
        errors := errors + [ValidationError(Join(v.path, "/"), error.value)];
      }
      i := i + 1;
    }
    assert visits[..i] == visits;
  }

  /** The errors of consecutive traversals follow each other. */
  lemma {:induction false} KeyErrorsAppend(a: seq<Visit>, b: seq<Visit>)
    ensures KeyErrors(a + b) == KeyErrors(a) + KeyErrors(b)
    decreases |b|
  {
    if |b| > 0 {
      assert (a + b)[..|a + b| - 1] == a + b[..|b| - 1];
      KeyErrorsAppend(a, b[..|b| - 1]);
    } else {
      assert a + b == a;
    }
  }

  /** No errors exactly when no visited key is an unknown keyword. */
  lemma {:induction false} KeyErrorsEmpty(visits: seq<Visit>)
    ensures |KeyErrors(visits)| == 0 <==> forall i :: 0 <= i < |visits| ==> ValidateKey(visits[i].name).None?
  {
    if |visits| > 0 {
      var init := visits[..|visits| - 1];
      KeyErrorsEmpty(init);
      assert forall i :: 0 <= i < |init| ==> init[i] == visits[i];
    }
  }

  /** Every error is an 'Unknown keyword' at the joined path of some offending visit. */
  lemma {:induction false} KeyErrorsFromVisits(visits: seq<Visit>)
    ensures forall e :: e in KeyErrors(visits) ==>
      (e.message == UnknownKeyword &&
       exists i :: 0 <= i < |visits| && ValidateKey(visits[i].name).Some? && e.path == Join(visits[i].path, "/"))
  {
    if |visits| > 0 {
      var init := visits[..|visits| - 1];
      KeyErrorsFromVisits(init);
      assert forall i :: 0 <= i < |init| ==> init[i] == visits[i];
    }
  }

  /** At most one error per visit, and as many as visits when every visit offends. */
  lemma {:induction false} KeyErrorsCount(visits: seq<Visit>)
    ensures |KeyErrors(visits)| <= |visits|
    ensures (forall i :: 0 <= i < |visits| ==> ValidateKey(visits[i].name).Some?) ==> |KeyErrors(visits)| == |visits|
  {
    if |visits| > 0 {
      var init := visits[..|visits| - 1];
      KeyErrorsCount(init);
      assert forall i :: 0 <= i < |init| ==> init[i] == visits[i];
    }
  }

  /** Every offending visit is reported: 'Unknown keyword' at its '/'-joined path. */
  lemma {:induction false} KeyErrorsComplete(visits: seq<Visit>, i: int)
    requires 0 <= i < |visits| && ValidateKey(visits[i].name).Some?
    ensures ValidationError(Join(visits[i].path, "/"), UnknownKeyword) in KeyErrors(visits)
  {
    var init := visits[..|visits| - 1];
    if i < |visits| - 1 {
      assert init[i] == visits[i];
      KeyErrorsComplete(init, i);
    }
  }

  /** The positions of the visits whose key is an unknown keyword. */
  ghost function OffendingVisits(visits: seq<Visit>): set<int> {
    set i | 0 <= i < |visits| && ValidateKey(visits[i].name).Some?
  }

  /** Exactly one error per offending visit. */
  lemma {:induction false} KeyErrorsExactCount(visits: seq<Visit>)
    ensures |KeyErrors(visits)| == |OffendingVisits(visits)|
  {
    if |visits| > 0 {
      var n := |visits| - 1;
      var init := visits[..n];
      KeyErrorsExactCount(init);
      assert forall i :: 0 <= i < n ==> init[i] == visits[i];
      var last := if ValidateKey(visits[n].name).Some? then {n} else {};
      assert OffendingVisits(visits) == OffendingVisits(init) + last;
      assert n !in OffendingVisits(init);
    }
  }

  /**
   * The keyword test: an object with keys "@type", "@context" and "@test", each holding an
   * empty object, visited key by key, gives one error, 'Unknown keyword' at path "@test".
   */
  function KeywordTestVisits(): seq<Visit> {
    var root := JObj([("@type", JObj([])), ("@context", JObj([])), ("@test", JObj([]))]);
    [Visit("@type", JObj([]), ["@type"], root),
     Visit("@context", JObj([]), ["@context"], root),
     Visit("@test", JObj([]), ["@test"], root)]
  }

  lemma ReportsUnknownKeyword()
    ensures KeyErrors(KeywordTestVisits()) == [ValidationError("@test", UnknownKeyword)]
  {
    var vs := KeywordTestVisits();
    assert ValidKeyword("@type") && ValidKeyword("@context");
    assert !ValidKeyword("@test");
    assert vs[..1][..0] == [];
    assert KeyErrors(vs[..1]) == [];
    assert vs[..2][..1] == vs[..1];
    assert KeyErrors(vs[..2]) == [];
    assert vs[..3] == vs && vs[..3][..2] == vs[..2];
    assert Join(["@test"], "/") == "@test";
  }
}
