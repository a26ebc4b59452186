/**
 * The argument checks, request parameters and batch bookkeeping of
 * utilities/chembl.py. A request the code would send is returned as a
 * `Request` value; the ChEMBL web service is not modelled, and its answers
 * for the batch lookup are an input (`fetch`).
 */
module Chembl {
  import opened Common

  /** A Python argument, as far as the checks look at it: a string, a list, or anything else. */
  datatype Arg = Str(text: string) | List(items: seq<Arg>) | Other

  /** A query parameter value. */
  datatype ParamValue = PStr(s: string) | PInt(i: int)

  /** The parameters in the order the code inserts them into its dict. */
  type Params = seq<(string, ParamValue)>

  /** An HTTP GET the code would send: the endpoint below the API root, and its parameters. */
  datatype Request = Request(endpoint: string, params: Params)

  /** The `ValueError` the code raises, with its message. */
  datatype Error = ValueError(msg: string)

  /** The keys of the dict; with distinct keys, the value under `key` is the `v` with `(key, v) in p`. */
  function Keys(p: Params): set<string> {
    set kv | kv in p :: kv.0
  }

  /** No key occurs twice, as in a Python dict. */
  predicate DistinctKeys(p: Params) {
    forall a, b :: 0 <= a < b < |p| ==> p[a].0 != p[b].0
  }

  // ---------------------------------------------------------------------------
  // validate_chembl_id

  /** `validate_chembl_id`: a string that starts with "CHEMBL" and is longer than that prefix. */
  function ValidateChemblId(id: Arg): bool {
    id.Str? && StartsWith(id.text, "CHEMBL") && |id.text| > 6
  }

  /** An identifier is valid exactly when it is "CHEMBL" followed by at least one more character. */
  lemma ValidIdShape(id: Arg)
    ensures ValidateChemblId(id) <==> exists rest :: rest != [] && id == Str("CHEMBL" + rest)
  {
    if ValidateChemblId(id) {
      var rest := id.text[6..];
      assert id.text == "CHEMBL" + rest;
    }
    if exists rest :: rest != [] && id == Str("CHEMBL" + rest) {
      var rest :| rest != [] && id == Str("CHEMBL" + rest);
      assert id.text[..6] == "CHEMBL";
    }
  }

  // ---------------------------------------------------------------------------
  // search_compounds

  /** `search_compounds`: the argument checks, in order, then the search request. */
  function SearchCompounds(query: Arg, limit: int, offset: int): (r: Result<Request, Error>)
    ensures r.Ok? <==> query.Str? && query.text != [] && 1 <= limit <= 1000 && offset >= 0
    ensures r.Ok? ==> (
      && r.value.endpoint == "/molecule/search.json"
      && Keys(r.value.params) == {"q", "limit", "offset"} && DistinctKeys(r.value.params)
      && ("q", PStr(query.text)) in r.value.params
      && ("limit", PInt(limit)) in r.value.params
      && ("offset", PInt(offset)) in r.value.params)
  {
    if !query.Str? || |query.text| == 0 then Err(ValueError("Query must be a non-empty string"))
    else if !(1 <= limit <= 1000) then Err(ValueError("Limit must be between 1 and 1000"))
    else if !(offset >= 0) then Err(ValueError("Offset must be >= 0"))
    else
      var p: Params := [("q", PStr(query.text)), ("limit", PInt(limit)), ("offset", PInt(offset))];
      assert p[0] in p && p[1] in p && p[2] in p;
      Ok(Request("/molecule/search.json", p))
  }

  /** The checks run in order: a bad query is reported whatever the limit and offset are, and a bad limit before a bad offset. */
  lemma SearchCompoundsFirstError(query: Arg, limit: int, offset: int)
    ensures !(query.Str? && query.text != []) ==>
      SearchCompounds(query, limit, offset) == Err(ValueError("Query must be a non-empty string"))
    ensures query.Str? && query.text != [] && !(1 <= limit <= 1000) ==>
      SearchCompounds(query, limit, offset) == Err(ValueError("Limit must be between 1 and 1000"))
    ensures query.Str? && query.text != [] && 1 <= limit <= 1000 && offset < 0 ==>
      SearchCompounds(query, limit, offset) == Err(ValueError("Offset must be >= 0"))
  {
  }

  // ---------------------------------------------------------------------------
  // get_compound_structure

  const StructureFormats: seq<string> := ["smiles", "inchi", "molfile", "sdf"]

  /** The request for one molecule record. */
  function MoleculeRequest(id: string): Request {
    Request("/molecule/" + id + ".json", [])
  }

  /** `get_compound_structure`: the identifier check, the format check, then the molecule request. */
  function GetCompoundStructure(id: Arg, format: Arg): (r: Result<Request, Error>)
    ensures r.Ok? <==> id.Str? && id.text != [] && format.Str? && format.text in StructureFormats
    ensures r.Ok? ==> r == Ok(MoleculeRequest(id.text))
  {
    if !id.Str? || |id.text| == 0 then Err(ValueError("ChEMBL ID must be a non-empty string"))
    else if !(format.Str? && format.text in StructureFormats) then
      Err(ValueError("Format must be one of ['smiles', 'inchi', 'molfile', 'sdf']"))
    else Ok(MoleculeRequest(id.text))
  }

  /** Exactly four formats are accepted for a usable identifier; the identifier is checked first. */
  lemma StructureFormatsAccepted(id: string, format: string)
    requires id != []
    ensures GetCompoundStructure(Str(id), Str(format)).Ok? <==>
      format == "smiles" || format == "inchi" || format == "molfile" || format == "sdf"
    ensures GetCompoundStructure(Str(""), Str(format)) == Err(ValueError("ChEMBL ID must be a non-empty string"))
  {
  }

  // ---------------------------------------------------------------------------
  // search_activities

  /** Python truthiness of an optional string: present and non-empty. */
  predicate Truthy(s: Option<string>) {
    s.Some? && s.value != []
  }

  /** The parameter a filter contributes, under `key`, when it is truthy. */
  function FilterParam(key: string, s: Option<string>): Params {
    if Truthy(s) then [(key, PStr(s.value))] else []
  }

  /** The parameters `search_activities` sends: `limit`, then each truthy filter in argument order. */
  function ActivityParams(target: Option<string>, assay: Option<string>, molecule: Option<string>,
                          activityType: Option<string>, limit: int): Params {
    [("limit", PInt(limit))]
      + FilterParam("target_chembl_id", target) + FilterParam("assay_chembl_id", assay)
      + FilterParam("molecule_chembl_id", molecule) + FilterParam("standard_type", activityType)
  }

  /**
   * `search_activities`: at least one truthy filter and a limit in range, then
   * `limit` followed by each truthy filter, `activity_type` under the key
   * `standard_type`.
   */
  method SearchActivities(target: Option<string>, assay: Option<string>, molecule: Option<string>,
                          activityType: Option<string>, limit: int) returns (r: Result<Request, Error>)
    ensures r.Ok? <==> (Truthy(target) || Truthy(assay) || Truthy(molecule) || Truthy(activityType)) && 1 <= limit <= 1000
    ensures !(Truthy(target) || Truthy(assay) || Truthy(molecule) || Truthy(activityType)) ==>
      r == Err(ValueError("At least one filter parameter must be provided (target, assay, molecule, or activity_type)"))
    ensures (Truthy(target) || Truthy(assay) || Truthy(molecule) || Truthy(activityType)) && !(1 <= limit <= 1000) ==>
      r == Err(ValueError("Limit must be between 1 and 1000"))
    ensures r.Ok? ==> r.value == Request("/activity.json", ActivityParams(target, assay, molecule, activityType, limit))
  {
    if !(Truthy(target) || Truthy(assay) || Truthy(molecule) || Truthy(activityType)) {
      return Err(ValueError("At least one filter parameter must be provided (target, assay, molecule, or activity_type)"));
    }
    if !(1 <= limit <= 1000) {
      return Err(ValueError("Limit must be between 1 and 1000"));
    }
    var params: Params := [("limit", PInt(limit))];
    if Truthy(target) {
      params := params + [("target_chembl_id", PStr(target.value))];
    }
    assert params == [("limit", PInt(limit))] + FilterParam("target_chembl_id", target);
    if Truthy(assay) {
      params := params + [("assay_chembl_id", PStr(assay.value))];
    }
    assert params == [("limit", PInt(limit))] + FilterParam("target_chembl_id", target)
      + FilterParam("assay_chembl_id", assay);
    if Truthy(molecule) {
      params := params + [("molecule_chembl_id", PStr(molecule.value))];
    }
    assert params == [("limit", PInt(limit))] + FilterParam("target_chembl_id", target)
      + FilterParam("assay_chembl_id", assay) + FilterParam("molecule_chembl_id", molecule);
    if Truthy(activityType) {
      params := params + [("standard_type", PStr(activityType.value))];
    }
    r := Ok(Request("/activity.json", params));
  }

  lemma {:induction false} KeysAppend(p: Params, q: Params)
    ensures Keys(p + q) == Keys(p) + Keys(q)
  {
    assert forall kv :: kv in p + q <==> kv in p || kv in q;
  }

  lemma KeysFilter(key: string, s: Option<string>)
    ensures Keys(FilterParam(key, s)) == if Truthy(s) then {key} else {}
  {
    if Truthy(s) {
      assert FilterParam(key, s)[0] in FilterParam(key, s);
    }
  }

  /** The parameter keys are `limit` and exactly the keys of the truthy filters; `activity_type` is sent as `standard_type`. */
  lemma ActivityParamsKeys(target: Option<string>, assay: Option<string>, molecule: Option<string>,
                           activityType: Option<string>, limit: int)
    ensures Keys(ActivityParams(target, assay, molecule, activityType, limit)) == {"limit"}
      + (if Truthy(target) then {"target_chembl_id"} else {})
      + (if Truthy(assay) then {"assay_chembl_id"} else {})
      + (if Truthy(molecule) then {"molecule_chembl_id"} else {})
      + (if Truthy(activityType) then {"standard_type"} else {})
  {
    var l: Params := [("limit", PInt(limit))];
    var t := FilterParam("target_chembl_id", target);
    var a := FilterParam("assay_chembl_id", assay);
    var m := FilterParam("molecule_chembl_id", molecule);
    var s := FilterParam("standard_type", activityType);
    assert Keys(l) == {"limit"} by { assert l[0] in l; }
    KeysFilter("target_chembl_id", target);
    KeysFilter("assay_chembl_id", assay);
    KeysFilter("molecule_chembl_id", molecule);
    KeysFilter("standard_type", activityType);
    KeysAppend(l, t);
    KeysAppend(l + t, a);
    KeysAppend(l + t + a, m);
    KeysAppend(l + t + a + m, s);
  }

  /** Each truthy filter is sent with the argument's own value, and `limit` with the limit. */
  lemma ActivityParamsValues(target: Option<string>, assay: Option<string>, molecule: Option<string>,
                             activityType: Option<string>, limit: int)
    ensures var p := ActivityParams(target, assay, molecule, activityType, limit);
      && p[0] == ("limit", PInt(limit))
      && (Truthy(target) ==> ("target_chembl_id", PStr(target.value)) in p)
      && (Truthy(assay) ==> ("assay_chembl_id", PStr(assay.value)) in p)
      && (Truthy(molecule) ==> ("molecule_chembl_id", PStr(molecule.value)) in p)
      && (Truthy(activityType) ==> ("standard_type", PStr(activityType.value)) in p)
  {
  }

  /** No key is sent twice. */
  lemma ActivityParamsDistinct(target: Option<string>, assay: Option<string>, molecule: Option<string>,
                               activityType: Option<string>, limit: int)
    ensures DistinctKeys(ActivityParams(target, assay, molecule, activityType, limit))
  {
    var order := ["limit", "target_chembl_id", "assay_chembl_id", "molecule_chembl_id", "standard_type"];
    var p := ActivityParams(target, assay, molecule, activityType, limit);
    assert forall a :: 0 <= a < |p| ==> p[a].0 in order;
  }

  // ---------------------------------------------------------------------------
  // batch_compound_lookup

  /** One entry of the batch results: the record that came back, or the error text. */
  datatype Entry<T> = Found(id: string, record: T) | Failed(id: string, error: string)

  datatype Batch<T> = Batch(batchSize: nat, successful: nat, failed: nat, results: seq<Entry<T>>)

  /** Python's `isinstance(id, str) and len(id) > 0`. */
  predicate UsableId(a: Arg) {
    a.Str? && a.text != []
  }

  /** The argument checks of `batch_compound_lookup`, in order. */
  function BatchCheck(ids: Arg): (r: Option<Error>)
    ensures r.None? <==> ids.List? && 1 <= |ids.items| <= 50 && forall k :: 0 <= k < |ids.items| ==> UsableId(ids.items[k])
  {
    if !ids.List? || |ids.items| == 0 then Some(ValueError("chembl_ids must be a non-empty list"))
    else if |ids.items| > 50 then Some(ValueError("Maximum 50 compounds per batch request"))
    else if !(forall k :: 0 <= k < |ids.items| ==> UsableId(ids.items[k])) then
      Some(ValueError("All chembl_ids must be non-empty strings"))
    else None
  }

  /** What `response.get('molecule_properties', {})` finds: no such key, an object, or another JSON value, named by its Python type. */
  datatype Properties = NoProperties | PropertiesObject | PropertiesOther(typeName: string)

  /**
   * The decoded answer to a molecule request: a JSON object, with its
   * `molecule_properties` and the fields an entry copies, or another JSON
   * value, named by its Python type (`NoneType`, `list`, `str`, ...).
   */
  datatype Answer<T> = Object(properties: Properties, record: T) | NotObject(typeName: string)

  /** The message of the `AttributeError` that `.get` raises on a value of type `typeName`. */
  function NoGetMessage(typeName: string): string {
    "'" + typeName + "' object has no attribute 'get'"
  }

  /** The reads of the `try` body, `response.get` and then `mol_properties.get`, do not raise. */
  predicate Readable<T>(a: Answer<T>) {
    a.Object? && !a.properties.PropertiesOther?
  }

  /** The whole `try` body for `id` runs through: the request answers, and the answer can be read. */
  predicate Succeeds<T>(fetch: Request -> Result<Answer<T>, string>, id: string) {
    fetch(MoleculeRequest(id)).Ok? && Readable(fetch(MoleculeRequest(id)).value)
  }

  /**
   * The entry for one identifier: its record when the `try` body runs
   * through, otherwise the text of the exception, whether the request
   * raised it or a `.get` on a non-object answer did.
   */
  function EntryFor<T>(fetch: Request -> Result<Answer<T>, string>, id: string): Entry<T> {
    var response := fetch(MoleculeRequest(id));
    if response.Err? then Failed(id, response.error)
    else match response.value
      case NotObject(t) => Failed(id, NoGetMessage(t))
      case Object(props, record) =>
        if props.PropertiesOther? then Failed(id, NoGetMessage(props.typeName)) else Found(id, record)
  }

  /** `sum(1 for r in results if r['success'])`. */
  function SuccessCount<T>(results: seq<Entry<T>>): (n: nat)
    ensures n <= |results|
  {
    if results == [] then 0
    else SuccessCount(results[..|results| - 1]) + (if results[|results| - 1].Found? then 1 else 0)
  }

  /**
   * `batch_compound_lookup`: after the checks, one entry per identifier in
   * input order, then the counts. `fetch` gives the decoded answer of the
   * service (or the text of the exception the request raised) for each request.
   */
  method BatchCompoundLookup<T>(ids: Arg, fetch: Request -> Result<Answer<T>, string>) returns (r: Result<Batch<T>, Error>)
    ensures r.Err? <==> BatchCheck(ids).Some?
    ensures r.Err? ==> r.error == BatchCheck(ids).value
    ensures r.Ok? ==> (
      && |r.value.results| == |ids.items|
      && forall k :: 0 <= k < |ids.items| ==> r.value.results[k] == EntryFor(fetch, ids.items[k].text))
    ensures r.Ok? ==> (
      && r.value.batchSize == |ids.items|
      && r.value.successful == SuccessCount(r.value.results)
      && r.value.successful + r.value.failed == r.value.batchSize)
  {
    var check := BatchCheck(ids);
    if check.Some? {
      return Err(check.value);
    }
    var items := ids.items;
    var results: seq<Entry<T>> := [];
    var k := 0;
    while k < |items|
      invariant k <= |items|
      invariant |results| == k
      invariant forall m :: 0 <= m < k ==> results[m] == EntryFor(fetch, items[m].text)
    {
      var id := items[k].text;
      var response := fetch(MoleculeRequest(id));
      var entry: Entry<T>;
      if response.Err? {
        entry := Failed(id, response.error);
      } else if response.value.NotObject? {
        entry := Failed(id, NoGetMessage(response.value.typeName));
      } else if response.value.properties.PropertiesOther? {
        entry := Failed(id, NoGetMessage(response.value.properties.typeName));
      } else {
        entry := Found(id, response.value.record);
      }
      results := results + [entry];
      k := k + 1;
    }
    var successful := 0;
    var m := 0;
    while m < |results|
      invariant m <= |results|
      invariant successful == SuccessCount(results[..m])
    {
      assert results[..m + 1][..m] == results[..m];
      if results[m].Found? {
        successful := successful + 1;
      }
      m := m + 1;
    }
    assert results[..m] == results;
    var failed := |results| - successful;
    r := Ok(Batch(|items|, successful, failed, results));
  }

  /**
   * Every entry carries the identifier it was made for. It is a success
   * exactly when the request answered with an object whose
   * `molecule_properties` is missing or an object; a failed request keeps its
   * error text, and an answer that is not an object, or whose
   * `molecule_properties` is not one (`null`, say), fails with the
   * `AttributeError` message of `.get` on that value.
   */
  lemma EntryForId<T>(fetch: Request -> Result<Answer<T>, string>, id: string)
    ensures EntryFor(fetch, id).id == id
    ensures EntryFor(fetch, id).Found? <==> Succeeds(fetch, id)
    ensures EntryFor(fetch, id).Found? ==> EntryFor(fetch, id).record == fetch(MoleculeRequest(id)).value.record
    ensures fetch(MoleculeRequest(id)).Err? ==> EntryFor(fetch, id) == Failed(id, fetch(MoleculeRequest(id)).error)
    ensures fetch(MoleculeRequest(id)).Ok? && fetch(MoleculeRequest(id)).value.NotObject? ==>
      EntryFor(fetch, id) == Failed(id, NoGetMessage(fetch(MoleculeRequest(id)).value.typeName))
    ensures (fetch(MoleculeRequest(id)).Ok? && fetch(MoleculeRequest(id)).value.Object?
      && fetch(MoleculeRequest(id)).value.properties.PropertiesOther?) ==>
      EntryFor(fetch, id) == Failed(id, NoGetMessage(fetch(MoleculeRequest(id)).value.properties.typeName))
  {
  }

  /** A `null` `molecule_properties` makes the lookup fail with the message `.get` raises on `None`. */
  lemma NullPropertiesFail<T>(fetch: Request -> Result<Answer<T>, string>, id: string, record: T)
    requires fetch(MoleculeRequest(id)) == Ok(Object(PropertiesOther("NoneType"), record))
    ensures EntryFor(fetch, id) == Failed(id, "'NoneType' object has no attribute 'get'")
    ensures !Succeeds(fetch, id)
  {
    assert EntryFor(fetch, id) == Failed(id, NoGetMessage("NoneType"));
    NoneTypeMessage();
  }

  lemma NoneTypeMessage()
    ensures NoGetMessage("NoneType") == "'NoneType' object has no attribute 'get'"
  {
  }

  /** The positions of the identifiers whose `try` body runs through. */
  function Answered<T>(fetch: Request -> Result<Answer<T>, string>, ids: seq<string>): set<nat> {
    set k | 0 <= k < |ids| && Succeeds(fetch, ids[k])
  }

  lemma AnsweredSnoc<T>(fetch: Request -> Result<Answer<T>, string>, ids: seq<string>)
    requires ids != []
    ensures |Answered(fetch, ids)| == |Answered(fetch, ids[..|ids| - 1])| + (if Succeeds(fetch, ids[|ids| - 1]) then 1 else 0)
  {
    var n := |ids|;
    var init := ids[..n - 1];
    if Succeeds(fetch, ids[n - 1]) {
      assert Answered(fetch, ids) == Answered(fetch, init) + {n - 1};
    } else {
      assert Answered(fetch, ids) == Answered(fetch, init);
    }
  }

  /** The successful entries are counted exactly: the count is the number of identifiers whose `try` body runs through. */
  lemma {:induction false} SuccessCountOfEntries<T>(fetch: Request -> Result<Answer<T>, string>, ids: seq<string>)
    ensures SuccessCount(seq(|ids|, k requires 0 <= k < |ids| => EntryFor(fetch, ids[k]))) == |Answered(fetch, ids)|
    decreases |ids|
  {
    if ids != [] {
      var n := |ids|;
      var init := ids[..n - 1];
      var es := seq(n, k requires 0 <= k < n => EntryFor(fetch, ids[k]));
      var es0 := seq(n - 1, k requires 0 <= k < n - 1 => EntryFor(fetch, init[k]));
      SuccessCountOfEntries(fetch, init);
      assert es[..n - 1] == es0;
      assert SuccessCount(es) == SuccessCount(es0) + (if es[n - 1].Found? then 1 else 0);
      AnsweredSnoc(fetch, ids);
    }
  }

  /** When every lookup answers, nothing fails; when every lookup raises, nothing succeeds. */
  lemma {:induction false} SuccessCountBounds<T>(results: seq<Entry<T>>)
    ensures (forall k :: 0 <= k < |results| ==> results[k].Found?) ==> SuccessCount(results) == |results|
    ensures (forall k :: 0 <= k < |results| ==> results[k].Failed?) ==> SuccessCount(results) == 0
    decreases |results|
  {
    if results != [] {
      SuccessCountBounds(results[..|results| - 1]);
    }
  }
}
