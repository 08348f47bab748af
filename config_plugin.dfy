/**
 * The plugin config validator of lighthouse-core/config/config-plugin.js: it checks the
 * shape of a plugin's JSON (`audits` and `category` only; audit entries with only a
 * string `path`; a category with a string `title`, optional string descriptions and
 * `auditRefs` of string `id` and number `weight`) and throws at the first deviation.
 * The input is the value after the `JSON.parse(JSON.stringify(...))` clone.
 */
module ConfigPlugin {
  import opened Wrappers
  import opened JsString
  import opened Json

  datatype AuditDefn = AuditDefn(path: string)
  datatype AuditRef = AuditRef(id: string, weight: real)
  datatype Category = Category(title: string, auditRefs: seq<AuditRef>,
                               description: Option<string>, manualDescription: Option<string>)
  datatype PluginConfig = PluginConfig(audits: Option<seq<AuditDefn>>, categories: map<string, Category>)

  /** A thrown message: the full plugin name followed by what is wrong. */
  function Error(fullName: string, detail: string): (e: string)
    ensures StartsWith(e, fullName)
  {
    assert (fullName + detail)[..|fullName|] == fullName;
    fullName + detail
  }

  /** `isObjectOfUnknownProperties(val)`. */
  predicate IsObjectOfUnknownProperties(v: Json) {
    IsObject(v)
  }

  /** `isArrayOfUnknownObjects(arr)`. */
  predicate IsArrayOfUnknownObjects(v: Json) {
    v.JArr? && forall i :: 0 <= i < |v.items| ==> IsObjectOfUnknownProperties(v.items[i])
  }

  /** `typeof v === 'string'` for a possibly missing property. */
  predicate IsString(v: Option<Json>) {
    v.Some? && v.value.JStr?
  }

  /** `typeof v === 'string' || typeof v === 'undefined'`. */
  predicate IsOptionalString(v: Option<Json>) {
    v.None? || v.value.JStr?
  }

  function OptionalString(v: Option<Json>): Option<string>
    requires IsOptionalString(v)
  {
    if v.None? then None else Some(v.value.s)
  }

  /** One element of the audits array. */
  function ParseAuditDefn(v: Json, fullName: string): (r: Result<AuditDefn, string>)
    requires IsObject(v)
  {
    var invalidKeys := InvalidKeys(v, ["path"]);
    if |invalidKeys| > 0 then Failure(Error(fullName, " has invalid audit properties: [" + Join(invalidKeys, ", ") + "]."))
    else if !IsString(Field(v, "path")) then Failure(Error(fullName, " has a missing audit path."))
    else Success(AuditDefn(Field(v, "path").value.s))
  }

  /** `auditsJson.map(...)`, which throws at the first bad element. */
  function ParseAuditDefns(items: seq<Json>, fullName: string): (r: Result<seq<AuditDefn>, string>)
    requires forall i :: 0 <= i < |items| ==> IsObject(items[i])
    ensures r.Success? <==> forall i :: 0 <= i < |items| ==> ParseAuditDefn(items[i], fullName).Success?
    ensures r.Success? ==> |r.value| == |items|
    ensures r.Success? ==> forall i :: 0 <= i < |items| ==> r.value[i] == ParseAuditDefn(items[i], fullName).value
  {
    if |items| == 0 then Success([])
    else
      var head :- ParseAuditDefn(items[0], fullName);
      var tail :- ParseAuditDefns(items[1..], fullName);
      Success([head] + tail)
  }

  /** `_parseAuditsList(auditsJson, fullPluginName)`. */
  function ParseAuditsList(auditsJson: Option<Json>, fullName: string): Result<Option<seq<AuditDefn>>, string> {
    if auditsJson.None? then Success(None)
    else if !IsArrayOfUnknownObjects(auditsJson.value) then Failure(Error(fullName, " has an invalid audits array."))
    else
      var defns :- ParseAuditDefns(auditsJson.value.items, fullName);
      Success(Some(defns))
  }

  /** One element of `auditRefs`. */
  function ParseAuditRef(v: Json, fullName: string): Result<AuditRef, string>
    requires IsObject(v)
  {
    var invalidKeys := InvalidKeys(v, ["id", "weight"]);
    if |invalidKeys| > 0 then Failure(Error(fullName, " has invalid auditRef properties [" + Join(invalidKeys, ", ") + "]."))
    else if !IsString(Field(v, "id")) then Failure(Error(fullName, " has an invalid auditRef id."))
    else if !(Field(v, "weight").Some? && Field(v, "weight").value.JNum?) then
      Failure(Error(fullName, " has an invalid auditRef weight."))
    else Success(AuditRef(Field(v, "id").value.s, Field(v, "weight").value.n))
  }

  function ParseAuditRefs(items: seq<Json>, fullName: string): (r: Result<seq<AuditRef>, string>)
    requires forall i :: 0 <= i < |items| ==> IsObject(items[i])
    ensures r.Success? <==> forall i :: 0 <= i < |items| ==> ParseAuditRef(items[i], fullName).Success?
    ensures r.Success? ==> |r.value| == |items|
    ensures r.Success? ==> forall i :: 0 <= i < |items| ==> r.value[i] == ParseAuditRef(items[i], fullName).value
  {
    if |items| == 0 then Success([])
    else
      var head :- ParseAuditRef(items[0], fullName);
      var tail :- ParseAuditRefs(items[1..], fullName);
      Success([head] + tail)
  }

  /** `_parseAuditRefsList(auditRefsJson, fullPluginName)`; a missing list is not an array. */
  function ParseAuditRefsList(auditRefsJson: Option<Json>, fullName: string): Result<seq<AuditRef>, string> {
    if !(auditRefsJson.Some? && IsArrayOfUnknownObjects(auditRefsJson.value)) then
      Failure(Error(fullName, " has no valid auditsRefs."))
    else ParseAuditRefs(auditRefsJson.value.items, fullName)
  }

  /** `_parseCategory(categoryJson, fullPluginName)`. */
  function ParseCategory(categoryJson: Option<Json>, fullName: string): Result<Category, string> {
    if !(categoryJson.Some? && IsObjectOfUnknownProperties(categoryJson.value)) then
      Failure(Error(fullName, " has no valid category."))
    else
      var c := categoryJson.value;
      var invalidKeys := InvalidKeys(c, ["title", "description", "manualDescription", "auditRefs"]);
      if |invalidKeys| > 0 then Failure(Error(fullName, " has invalid category properties [" + Join(invalidKeys, ", ") + "]."))
      else if !IsString(Field(c, "title")) then Failure(Error(fullName, " has an invalid category tile."))
      else if !IsOptionalString(Field(c, "description")) then Failure(Error(fullName, " has an invalid category description."))
      else if !IsOptionalString(Field(c, "manualDescription")) then
        Failure(Error(fullName, " has an invalid category manualDescription."))
      else
        var auditRefs :- ParseAuditRefsList(Field(c, "auditRefs"), fullName);
        Success(Category(Field(c, "title").value.s, auditRefs,
                         OptionalString(Field(c, "description")), OptionalString(Field(c, "manualDescription"))))
  }

  /** `parsePlugin(pluginJson, pluginName)`, on the cloned value. */
  function ParsePlugin(pluginJson: Json, pluginName: string): Result<PluginConfig, string> {
    var fullName := "lighthouse-plugin-" + pluginName;
    if !IsObjectOfUnknownProperties(pluginJson) then Failure(Error(fullName, " is not defined as an object."))
    else
      var invalidKeys := InvalidKeys(pluginJson, ["audits", "category"]);
      if |invalidKeys| > 0 then Failure(Error(fullName, " has invalid properties [" + Join(invalidKeys, ", ") + "]."))
      else
        var audits :- ParseAuditsList(Field(pluginJson, "audits"), fullName);
        var category :- ParseCategory(Field(pluginJson, "category"), fullName);
        Success(PluginConfig(audits, map["pluginName" := category]))
  }

  /** Accepted audit entries: an object whose only key is `path`, holding a string. */
  predicate AuditShape(v: Json) {
    IsObject(v) && (forall k :: k in OwnKeys(v) ==> k == "path") && IsString(Field(v, "path"))
  }

  /** Accepted auditRefs: only `id` (a string) and `weight` (a number). */
  predicate AuditRefShape(v: Json) {
    IsObject(v) && (forall k :: k in OwnKeys(v) ==> k == "id" || k == "weight") &&
    IsString(Field(v, "id")) && Field(v, "weight").Some? && Field(v, "weight").value.JNum?
  }

  /** One audit entry is accepted exactly when it has the audit shape. */
  lemma AuditDefnAccepted(v: Json, fullName: string)
    requires IsObject(v)
    ensures ParseAuditDefn(v, fullName).Success? <==> AuditShape(v)
    ensures ParseAuditDefn(v, fullName).Success? ==> ParseAuditDefn(v, fullName).value == AuditDefn(Field(v, "path").value.s)
  {
    InvalidKeysNone(v, ["path"]);
  }

  /**
   * The audits list is accepted exactly when every entry has the audit shape, and then
   * it is the list of their paths, in order.
   */
  lemma AuditDefnsAccepted(items: seq<Json>, fullName: string)
    requires forall i :: 0 <= i < |items| ==> IsObject(items[i])
    ensures ParseAuditDefns(items, fullName).Success? <==> forall i :: 0 <= i < |items| ==> AuditShape(items[i])
    ensures ParseAuditDefns(items, fullName).Success? ==>
      forall i :: 0 <= i < |items| ==>
        ParseAuditDefns(items, fullName).value[i] == AuditDefn(Field(items[i], "path").value.s)
  {
    forall k | 0 <= k < |items|
      ensures ParseAuditDefn(items[k], fullName).Success? <==> AuditShape(items[k])
      ensures ParseAuditDefn(items[k], fullName).Success? ==> ParseAuditDefn(items[k], fullName).value == AuditDefn(Field(items[k], "path").value.s)
    {
      AuditDefnAccepted(items[k], fullName);
    }
  }

  /** One entry: unknown keys are reported before the type of `path` is looked at. */
  lemma AuditDefnErrors(v: Json, fullName: string)
    requires IsObject(v)
    ensures (exists k :: k in OwnKeys(v) && k != "path") ==>
      ParseAuditDefn(v, fullName) ==
      Failure(Error(fullName, " has invalid audit properties: [" + Join(InvalidKeys(v, ["path"]), ", ") + "]."))
    ensures (forall k :: k in OwnKeys(v) ==> k == "path") && !IsString(Field(v, "path")) ==>
      ParseAuditDefn(v, fullName) == Failure(Error(fullName, " has a missing audit path."))
  {
    InvalidKeysNone(v, ["path"]);
  }

  /** One auditRef is accepted exactly when it has the auditRef shape. */
  lemma AuditRefAccepted(v: Json, fullName: string)
    requires IsObject(v)
    ensures ParseAuditRef(v, fullName).Success? <==> AuditRefShape(v)
    ensures ParseAuditRef(v, fullName).Success? ==>
      ParseAuditRef(v, fullName).value == AuditRef(Field(v, "id").value.s, Field(v, "weight").value.n)
  {
    InvalidKeysNone(v, ["id", "weight"]);
  }

  /** AuditRefs: unknown keys first, then the id, then the weight. */
  lemma AuditRefErrors(v: Json, fullName: string)
    requires IsObject(v)
    ensures (exists k :: k in OwnKeys(v) && k != "id" && k != "weight") ==>
      ParseAuditRef(v, fullName) ==
      Failure(Error(fullName, " has invalid auditRef properties [" + Join(InvalidKeys(v, ["id", "weight"]), ", ") + "]."))
    ensures (forall k :: k in OwnKeys(v) ==> k == "id" || k == "weight") && !IsString(Field(v, "id")) ==>
      ParseAuditRef(v, fullName) == Failure(Error(fullName, " has an invalid auditRef id."))
    ensures ((forall k :: k in OwnKeys(v) ==> k == "id" || k == "weight") && IsString(Field(v, "id")) &&
      !(Field(v, "weight").Some? && Field(v, "weight").value.JNum?)) ==>
      ParseAuditRef(v, fullName) == Failure(Error(fullName, " has an invalid auditRef weight."))
  {
    InvalidKeysNone(v, ["id", "weight"]);
  }

  /** The auditRefs list: accepted exactly when every entry has the auditRef shape. */
  lemma AuditRefsAccepted(items: seq<Json>, fullName: string)
    requires forall i :: 0 <= i < |items| ==> IsObject(items[i])
    ensures ParseAuditRefs(items, fullName).Success? <==> forall i :: 0 <= i < |items| ==> AuditRefShape(items[i])
    ensures ParseAuditRefs(items, fullName).Success? ==>
      forall i :: 0 <= i < |items| ==>
        ParseAuditRefs(items, fullName).value[i] == AuditRef(Field(items[i], "id").value.s, Field(items[i], "weight").value.n)
  {
    forall k | 0 <= k < |items|
      ensures ParseAuditRef(items[k], fullName).Success? <==> AuditRefShape(items[k])
      ensures ParseAuditRef(items[k], fullName).Success? ==> ParseAuditRef(items[k], fullName).value == AuditRef(Field(items[k], "id").value.s, Field(items[k], "weight").value.n)
    {
      AuditRefAccepted(items[k], fullName);
    }
  }

  /**
   * The list and object checks that come before any element is looked at: missing audits
   * are allowed, anything else that is no array of objects is rejected, and so are
   * auditRefs that are missing or no array of objects and a category that is missing or
   * no object.
   */
  lemma ContainerErrors(auditsJson: Option<Json>, auditRefsJson: Option<Json>, categoryJson: Option<Json>, fullName: string)
    ensures auditsJson.None? ==> ParseAuditsList(auditsJson, fullName) == Success(None)
    ensures auditsJson.Some? && !IsArrayOfUnknownObjects(auditsJson.value) ==>
      ParseAuditsList(auditsJson, fullName) == Failure(Error(fullName, " has an invalid audits array."))
    ensures !(auditRefsJson.Some? && IsArrayOfUnknownObjects(auditRefsJson.value)) ==>
      ParseAuditRefsList(auditRefsJson, fullName) == Failure(Error(fullName, " has no valid auditsRefs."))
    ensures !(categoryJson.Some? && IsObject(categoryJson.value)) ==>
      ParseCategory(categoryJson, fullName) == Failure(Error(fullName, " has no valid category."))
  {
  }

  /**
   * The category: unknown keys first, then the title, the description and the manual
   * description; the parsed category keeps title, descriptions and auditRefs.
   */
  lemma CategoryErrors(v: Json, fullName: string)
    requires IsObject(v)
    ensures (exists k :: k in OwnKeys(v) && k !in ["title", "description", "manualDescription", "auditRefs"]) ==>
      ParseCategory(Some(v), fullName) ==
      Failure(Error(fullName, " has invalid category properties [" +
        Join(InvalidKeys(v, ["title", "description", "manualDescription", "auditRefs"]), ", ") + "]."))
    ensures ((forall k :: k in OwnKeys(v) ==> k in ["title", "description", "manualDescription", "auditRefs"]) &&
      !IsString(Field(v, "title"))) ==>
      ParseCategory(Some(v), fullName) == Failure(Error(fullName, " has an invalid category tile."))
    ensures ((forall k :: k in OwnKeys(v) ==> k in ["title", "description", "manualDescription", "auditRefs"]) &&
      IsString(Field(v, "title")) && !IsOptionalString(Field(v, "description"))) ==>
      ParseCategory(Some(v), fullName) == Failure(Error(fullName, " has an invalid category description."))
    ensures ((forall k :: k in OwnKeys(v) ==> k in ["title", "description", "manualDescription", "auditRefs"]) &&
      IsString(Field(v, "title")) && IsOptionalString(Field(v, "description")) &&
      !IsOptionalString(Field(v, "manualDescription"))) ==>
      ParseCategory(Some(v), fullName) == Failure(Error(fullName, " has an invalid category manualDescription."))
    ensures ParseCategory(Some(v), fullName).Success? ==>
      var c := ParseCategory(Some(v), fullName).value;
      Field(v, "title") == Some(JStr(c.title)) &&
      (if c.description.Some? then Field(v, "description") == Some(JStr(c.description.value)) else Field(v, "description") == None) &&
      (if c.manualDescription.Some? then Field(v, "manualDescription") == Some(JStr(c.manualDescription.value))
       else Field(v, "manualDescription") == None) &&
      ParseAuditRefsList(Field(v, "auditRefs"), fullName) == Success(c.auditRefs)
  {
    InvalidKeysNone(v, ["title", "description", "manualDescription", "auditRefs"]);
  }

  /** The plugin is rejected unless it is an object whose keys are among `audits` and `category`. */
  lemma PluginShape(pluginJson: Json, pluginName: string)
    ensures !IsObject(pluginJson) ==>
      ParsePlugin(pluginJson, pluginName) == Failure(Error("lighthouse-plugin-" + pluginName, " is not defined as an object."))
    ensures IsObject(pluginJson) && (exists k :: k in OwnKeys(pluginJson) && k != "audits" && k != "category") ==>
      ParsePlugin(pluginJson, pluginName) == Failure(Error("lighthouse-plugin-" + pluginName, " has invalid properties [" +
        Join(InvalidKeys(pluginJson, ["audits", "category"]), ", ") + "]."))
    ensures ParsePlugin(pluginJson, pluginName).Success? ==>
      IsObject(pluginJson) && forall k :: k in OwnKeys(pluginJson) ==> k == "audits" || k == "category"
    ensures ParsePlugin(pluginJson, pluginName).Success? ==>
      var config := ParsePlugin(pluginJson, pluginName).value;
      config.categories.Keys == {"pluginName"} &&
      ParseAuditsList(Field(pluginJson, "audits"), "lighthouse-plugin-" + pluginName) == Success(config.audits) &&
      ParseCategory(Field(pluginJson, "category"), "lighthouse-plugin-" + pluginName) == Success(config.categories["pluginName"])
  {
    if IsObject(pluginJson) {
      InvalidKeysNone(pluginJson, ["audits", "category"]);
    }
  }

  /** Every error names the plugin: it starts with `lighthouse-plugin-<name>`. */
  lemma ErrorsNamePlugin(pluginJson: Json, pluginName: string)
    ensures ParsePlugin(pluginJson, pluginName).Failure? ==>
      StartsWith(ParsePlugin(pluginJson, pluginName).error, "lighthouse-plugin-" + pluginName)
  {
    var fullName := "lighthouse-plugin-" + pluginName;
    AuditsListNamePlugin(Field(pluginJson, "audits"), fullName);
    CategoryNamesPlugin(Field(pluginJson, "category"), fullName);
  }

  lemma AuditsListNamePlugin(auditsJson: Option<Json>, fullName: string)
    ensures ParseAuditsList(auditsJson, fullName).Failure? ==> StartsWith(ParseAuditsList(auditsJson, fullName).error, fullName)
  {
    if auditsJson.Some? && IsArrayOfUnknownObjects(auditsJson.value) {
      AuditDefnsNamePlugin(auditsJson.value.items, fullName);
    }
  }

  lemma CategoryNamesPlugin(categoryJson: Option<Json>, fullName: string)
    ensures ParseCategory(categoryJson, fullName).Failure? ==> StartsWith(ParseCategory(categoryJson, fullName).error, fullName)
  {
    if categoryJson.Some? && IsObject(categoryJson.value) {
      var refs := Field(categoryJson.value, "auditRefs");
      if refs.Some? && IsArrayOfUnknownObjects(refs.value) {
        AuditRefsNamePlugin(refs.value.items, fullName);
      }
    }
  }

  lemma {:induction false} AuditDefnsNamePlugin(items: seq<Json>, fullName: string)
    requires forall i :: 0 <= i < |items| ==> IsObject(items[i])
    ensures ParseAuditDefns(items, fullName).Failure? ==> StartsWith(ParseAuditDefns(items, fullName).error, fullName)
  {
    if |items| > 0 {
      AuditDefnsNamePlugin(items[1..], fullName);
    }
  }

  lemma {:induction false} AuditRefsNamePlugin(items: seq<Json>, fullName: string)
    requires forall i :: 0 <= i < |items| ==> IsObject(items[i])
    ensures ParseAuditRefs(items, fullName).Failure? ==> StartsWith(ParseAuditRefs(items, fullName).error, fullName)
  {
    if |items| > 0 {
      AuditRefsNamePlugin(items[1..], fullName);
    }
  }

  /** The JSON a plugin author writes for a given config. */
  function EncodeAuditDefn(d: AuditDefn): Json {
    JObj([("path", JStr(d.path))])
  }

  function EncodeAuditRef(r: AuditRef): Json {
    JObj([("id", JStr(r.id)), ("weight", JNum(r.weight))])
  }

  function EncodeAuditDefns(ds: seq<AuditDefn>): Json {
    JArr(seq(|ds|, i requires 0 <= i < |ds| => EncodeAuditDefn(ds[i])))
  }

  function EncodeAuditRefs(rs: seq<AuditRef>): Json {
    JArr(seq(|rs|, i requires 0 <= i < |rs| => EncodeAuditRef(rs[i])))
  }

  /** A category object: `title`, the descriptions that are present, `auditRefs`. */
  function CategoryObject(title: string, description: Option<string>, manualDescription: Option<string>,
                          auditRefs: Json): Json {
    var t := ("title", JStr(title));
    var r := ("auditRefs", auditRefs);
    if description.Some? && manualDescription.Some? then
      JObj([t, ("description", JStr(description.value)), ("manualDescription", JStr(manualDescription.value)), r])
    else if description.Some? then JObj([t, ("description", JStr(description.value)), r])
    else if manualDescription.Some? then JObj([t, ("manualDescription", JStr(manualDescription.value)), r])
    else JObj([t, r])
  }

  function EncodeCategory(c: Category): Json {
    CategoryObject(c.title, c.description, c.manualDescription, EncodeAuditRefs(c.auditRefs))
  }

  function EncodePlugin(audits: Option<seq<AuditDefn>>, category: Category): Json {
    JObj((if audits.Some? then [("audits", EncodeAuditDefns(audits.value))] else []) +
         [("category", EncodeCategory(category))])
  }

  lemma EncodedAuditDefn(d: AuditDefn)
    ensures AuditShape(EncodeAuditDefn(d)) && Field(EncodeAuditDefn(d), "path") == Some(JStr(d.path))
  {
    assert OwnKeys(EncodeAuditDefn(d)) == ["path"];
  }

  lemma EncodedAuditRef(r: AuditRef)
    ensures AuditRefShape(EncodeAuditRef(r))
    ensures Field(EncodeAuditRef(r), "id") == Some(JStr(r.id)) && Field(EncodeAuditRef(r), "weight") == Some(JNum(r.weight))
  {
    var props := EncodeAuditRef(r).props;
    assert OwnKeys(EncodeAuditRef(r)) == ["id", "weight"];
    UniqueField(props, "id", 0);
    UniqueField(props, "weight", 1);
  }

  lemma AuditDefnsRoundTrip(ds: seq<AuditDefn>, fullName: string)
    ensures ParseAuditsList(Some(EncodeAuditDefns(ds)), fullName) == Success(Some(ds))
  {
    var items := EncodeAuditDefns(ds).items;
    forall i | 0 <= i < |items| ensures AuditShape(items[i]) && Field(items[i], "path") == Some(JStr(ds[i].path)) {
      EncodedAuditDefn(ds[i]);
    }
    AuditDefnsAccepted(items, fullName);
    assert ParseAuditDefns(items, fullName).value == ds;
  }

  lemma AuditRefsRoundTrip(rs: seq<AuditRef>, fullName: string)
    ensures ParseAuditRefsList(Some(EncodeAuditRefs(rs)), fullName) == Success(rs)
  {
    var items := EncodeAuditRefs(rs).items;
    forall i | 0 <= i < |items|
      ensures AuditRefShape(items[i]) && Field(items[i], "id") == Some(JStr(rs[i].id)) &&
        Field(items[i], "weight") == Some(JNum(rs[i].weight)) {
      EncodedAuditRef(rs[i]);
    }
    AuditRefsAccepted(items, fullName);
    assert ParseAuditRefs(items, fullName).value == rs;
  }

  /** A category object has distinct keys, `title` first and `auditRefs` last. */
  lemma CategoryObjectShape(title: string, description: Option<string>, manualDescription: Option<string>, auditRefs: Json)
    ensures var v := CategoryObject(title, description, manualDescription, auditRefs);
      v.JObj? && DistinctKeys(v.props) && 2 <= |v.props| &&
      v.props[0] == ("title", JStr(title)) && v.props[|v.props| - 1] == ("auditRefs", auditRefs) &&
      forall k :: k in OwnKeys(v) ==> k in ["title", "description", "manualDescription", "auditRefs"]
  {
  }

  /** `title` and `auditRefs` read back. */
  lemma CategoryObjectEnds(title: string, description: Option<string>, manualDescription: Option<string>, auditRefs: Json)
    ensures Field(CategoryObject(title, description, manualDescription, auditRefs), "title") == Some(JStr(title))
    ensures Field(CategoryObject(title, description, manualDescription, auditRefs), "auditRefs") == Some(auditRefs)
  {
    CategoryObjectShape(title, description, manualDescription, auditRefs);
    var props := CategoryObject(title, description, manualDescription, auditRefs).props;
    UniqueField(props, "title", 0);
    UniqueField(props, "auditRefs", |props| - 1);
  }

  /** `description` reads back as given, absent when absent. */
  lemma CategoryObjectDescription(title: string, description: Option<string>, manualDescription: Option<string>, auditRefs: Json)
    ensures Field(CategoryObject(title, description, manualDescription, auditRefs), "description") ==
      if description.Some? then Some(JStr(description.value)) else None
  {
    CategoryObjectShape(title, description, manualDescription, auditRefs);
    var props := CategoryObject(title, description, manualDescription, auditRefs).props;
    if description.Some? {
      UniqueField(props, "description", 1);
    } else {
      assert forall i :: 0 <= i < |props| ==> props[i].0 != "description";
    }
  }

  /** `manualDescription` reads back as given, absent when absent. */
  lemma CategoryObjectManual(title: string, description: Option<string>, manualDescription: Option<string>, auditRefs: Json)
    ensures Field(CategoryObject(title, description, manualDescription, auditRefs), "manualDescription") ==
      if manualDescription.Some? then Some(JStr(manualDescription.value)) else None
  {
    CategoryObjectShape(title, description, manualDescription, auditRefs);
    var props := CategoryObject(title, description, manualDescription, auditRefs).props;
    if manualDescription.Some? {
      UniqueField(props, "manualDescription", if description.Some? then 2 else 1);
    } else {
      assert forall i :: 0 <= i < |props| ==> props[i].0 != "manualDescription";
    }
  }

  /** A well-formed category parses back to itself. */
  lemma CategoryRoundTrip(c: Category, fullName: string)
    ensures ParseCategory(Some(EncodeCategory(c)), fullName) == Success(c)
  {
    var refs := EncodeAuditRefs(c.auditRefs);
    CategoryObjectShape(c.title, c.description, c.manualDescription, refs);
    CategoryObjectEnds(c.title, c.description, c.manualDescription, refs);
    CategoryObjectDescription(c.title, c.description, c.manualDescription, refs);
    CategoryObjectManual(c.title, c.description, c.manualDescription, refs);
    InvalidKeysNone(EncodeCategory(c), ["title", "description", "manualDescription", "auditRefs"]);
    AuditRefsRoundTrip(c.auditRefs, fullName);
  }

  /** A well-formed plugin parses back to the config it encodes, under the key 'pluginName'. */
  lemma PluginRoundTrip(audits: Option<seq<AuditDefn>>, category: Category, pluginName: string)
    ensures ParsePlugin(EncodePlugin(audits, category), pluginName) ==
      Success(PluginConfig(audits, map["pluginName" := category]))
  {
    var fullName := "lighthouse-plugin-" + pluginName;
    var v := EncodePlugin(audits, category);
    assert OwnKeys(v) == (if audits.Some? then ["audits", "category"] else ["category"]);
    InvalidKeysNone(v, ["audits", "category"]);
    if audits.Some? {
      assert Field(v, "audits") == Some(EncodeAuditDefns(audits.value));
      AuditDefnsRoundTrip(audits.value, fullName);
    } else {
      assert Field(v, "audits") == None;
    }
    assert Field(v, "category") == Some(EncodeCategory(category));
    CategoryRoundTrip(category, fullName);
  }
}
