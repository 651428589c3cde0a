/**
 * What `KommoService` sends to and reads from the Kommo CRM API, with every HTTP
 * response passed in as a JSON value: the URL it calls, the lead payload it PATCHes,
 * the salesbot body it POSTs, the query parameters it GETs with, and the way it
 * picks contact and lead custom fields out of the responses into a raw lead.
 *
 * Every exception the service would raise while reading a response of the wrong
 * shape (`KeyError`, `TypeError`, `IndexError`, `AttributeError`) is the one error
 * `MalformedResponse`; a `field_ids` entry the payload needs but the configuration
 * lacks is `MissingFieldId`.
 */
module Kommo {
  import opened Wrappers
  import opened Json
  import opened Text
  import ClickLog

  /** `KommoConfig`: the parts the service reads. Field ids are looked up by name. */
  datatype KommoConfig = KommoConfig(
    baseUrl: string,
    subdomain: string,
    targetPipelineId: Value,
    fieldIds: map<string, Value>)

  datatype KommoError = MissingFieldId(key: string) | MalformedResponse

  /** One HTTP call: its method, endpoint (appended to the base URL), query parameters in order, and JSON body. */
  datatype Request = Request(httpMethod: string, endpoint: string, params: seq<(string, Value)>, body: Value)

  // ------------------------------------------------------------------ URL

  /** `base_url.format(subdomain=...)`, for a template whose only field is `{subdomain}`. */
  function FormatSubdomain(baseUrl: string, subdomain: string): string {
    Replace(baseUrl, "{subdomain}", subdomain)
  }

  /**
   * `_build_url`: the formatted base with every "v4" replaced by `apiVersion`
   * (in the whole formatted string, subdomain included), then the endpoint.
   */
  function BuildUrl(config: KommoConfig, endpoint: string, apiVersion: string): (url: string)
    ensures |url| >= |endpoint| && url[|url| - |endpoint|..] == endpoint
    ensures url[..|url| - |endpoint|] == Replace(FormatSubdomain(config.baseUrl, config.subdomain), "v4", apiVersion)
  {
    Replace(FormatSubdomain(config.baseUrl, config.subdomain), "v4", apiVersion) + endpoint
  }

  /** With the default version "v4" the replacement is the identity: the formatted base, then the endpoint. */
  lemma BuildUrlDefaultVersion(config: KommoConfig, endpoint: string)
    ensures BuildUrl(config, endpoint, "v4") == FormatSubdomain(config.baseUrl, config.subdomain) + endpoint
  {
    ReplaceSelf(FormatSubdomain(config.baseUrl, config.subdomain), "v4");
  }

  // ------------------------------------------------------------------ order id

  const OrderIdKey := Str("order_id")

  /** `_create_order_id`: `{"order_id": "order_<lead id>"}`. */
  function CreateOrderId(leadId: int): (m: map<Value, Value>)
    ensures m.Keys == {OrderIdKey} && m[OrderIdKey].Str?
    ensures |m[OrderIdKey].s| >= 6 && m[OrderIdKey].s[..6] == "order_" && m[OrderIdKey].s[6..] == IntToString(leadId)
  {
    map[OrderIdKey := Str("order_" + IntToString(leadId))]
  }

  /** Distinct leads get distinct order ids. */
  lemma CreateOrderIdInjective(a: int, b: int)
    requires CreateOrderId(a) == CreateOrderId(b)
    ensures a == b
  {
    var sa, sb := CreateOrderId(a)[OrderIdKey].s, CreateOrderId(b)[OrderIdKey].s;
    assert sa[6..] == sb[6..];
    IntToStringInjective(a, b);
  }

  // ------------------------------------------------------------------ custom fields

  /** `_get_contact_field_ids`: a missing name contributes `None`. */
  function ContactFieldIds(config: KommoConfig): set<Value> {
    {Get(config.fieldIds, "phone"), Get(config.fieldIds, "email")}
  }

  /** `_get_lead_field_ids`. */
  function LeadFieldIds(config: KommoConfig): set<Value> {
    {Get(config.fieldIds, "gclid"), Get(config.fieldIds, "gbraid"), Get(config.fieldIds, "conversion_value"),
     Get(config.fieldIds, "currency_code"), Get(config.fieldIds, "conversion_time")}
  }

  /** Python can test membership of, and key a dict by, everything except lists and dicts. */
  predicate Hashable(v: Value) {
    !v.Arr? && !v.Obj?
  }

  /** Contact fields are keyed by their lower-cased name, lead fields by their name as is. */
  datatype FieldKind = ContactField | LeadField

  /** The dict key a selected field is stored under, if it has one of the right type. */
  function FieldKey(field: map<string, Value>, kind: FieldKind): (k: Option<Value>)
    ensures k.Some? ==> Hashable(k.value)
    ensures kind == ContactField && k.Some? ==> k.value.Str? && IsLowered(k.value.s)
  {
    match kind
    case ContactField =>
      if "field_name" in field && field["field_name"].Str? then
        LowerSpec(field["field_name"].s);
        Some(Str(Lower(field["field_name"].s)))
      else None
    case LeadField =>
      var name := Get(field, "field_name");
      if Hashable(name) then Some(name) else None
  }

  /** `field["values"][0]["value"]`, where the field has one. */
  function FirstValue(field: map<string, Value>): Option<Value> {
    if "values" in field && field["values"].Arr? && |field["values"].items| > 0
       && field["values"].items[0].Obj? && "value" in field["values"].items[0].fields
    then Some(field["values"].items[0].fields["value"])
    else None
  }

  /** A field whose `field_id` is one of `ids`. */
  predicate Selected(field: Value, ids: set<Value>) {
    field.Obj? && Get(field.fields, "field_id") in ids
  }

  /**
   * A field the loop body gets through: a dict whose `field_id` can be looked up in a set
   * and, when selected, has a key of the right type and a first value.
   */
  predicate WellFormedField(field: Value, ids: set<Value>, kind: FieldKind) {
    && field.Obj? && Hashable(Get(field.fields, "field_id"))
    && (Selected(field, ids) ==> FieldKey(field.fields, kind).Some? && FirstValue(field.fields).Some?)
  }

  /** One pass of the loop body over `field`, with `acc` the dict so far. */
  function StepField(acc: map<Value, Value>, field: Value, ids: set<Value>, kind: FieldKind): (r: Result<map<Value, Value>, KommoError>)
    ensures r.Success? <==> WellFormedField(field, ids, kind)
    ensures r.Failure? ==> r.error == MalformedResponse
    // a field that is not selected leaves the dict alone
    ensures r.Success? && !Selected(field, ids) ==> r.value == acc
    // a selected field sets its key to its first value and touches nothing else
    ensures r.Success? && Selected(field, ids) ==>
      var k := FieldKey(field.fields, kind).value;
      && r.value.Keys == acc.Keys + {k}
      && r.value[k] == FirstValue(field.fields).value
      && forall k' :: k' in acc && k' != k ==> r.value[k'] == acc[k']
  {
    if !field.Obj? || !Hashable(Get(field.fields, "field_id")) then Failure(MalformedResponse)
    else if !Selected(field, ids) then Success(acc)
    else
      match (FieldKey(field.fields, kind), FirstValue(field.fields))
      case (Some(k), Some(v)) => Success(acc[k := v])
      case _ => Failure(MalformedResponse)
  }

  /** The dict the field loop builds from `fields`, or the error it stops at. */
  function CollectFields(fields: seq<Value>, ids: set<Value>, kind: FieldKind): (r: Result<map<Value, Value>, KommoError>)
    // the loop runs to the end exactly when every field is well formed
    ensures r.Success? <==> forall i :: 0 <= i < |fields| ==> WellFormedField(fields[i], ids, kind)
    ensures r.Failure? ==> r.error == MalformedResponse
    decreases |fields|
  {
    if fields == [] then Success(map[])
    else
      var init := fields[..|fields| - 1];
      assert forall i :: 0 <= i < |init| ==> init[i] == fields[i];
      match CollectFields(init, ids, kind)
      case Failure(e) => Failure(e)
      case Success(acc) => StepField(acc, fields[|fields| - 1], ids, kind)
  }

  /** Once the loop has failed on a prefix it fails on the whole list, with the same error. */
  lemma {:induction false} CollectFailureSticks(fields: seq<Value>, i: nat, ids: set<Value>, kind: FieldKind)
    requires i <= |fields| && CollectFields(fields[..i], ids, kind).Failure?
    ensures CollectFields(fields, ids, kind) == CollectFields(fields[..i], ids, kind)
    decreases |fields| - i
  {
    if i < |fields| {
      assert fields[..i + 1][..i] == fields[..i];
      CollectFailureSticks(fields, i + 1, ids, kind);
    } else {
      assert fields[..i] == fields;
    }
  }

  /** Only selected fields contribute: every key comes from a selected field carrying that key. */
  lemma {:induction false} CollectOnlySelected(fields: seq<Value>, ids: set<Value>, kind: FieldKind, k: Value)
    requires CollectFields(fields, ids, kind).Success? && k in CollectFields(fields, ids, kind).value
    ensures exists i :: 0 <= i < |fields| && Selected(fields[i], ids) && FieldKey(fields[i].fields, kind) == Some(k)
    decreases |fields|
  {
    var init, last := fields[..|fields| - 1], fields[|fields| - 1];
    var acc := CollectFields(init, ids, kind).value;
    if Selected(last, ids) && FieldKey(last.fields, kind) == Some(k) {
      assert fields[|fields| - 1] == last;
    } else {
      assert k in acc;
      CollectOnlySelected(init, ids, kind, k);
      var i :| 0 <= i < |init| && Selected(init[i], ids) && FieldKey(init[i].fields, kind) == Some(k);
      assert fields[i] == init[i];
    }
  }

  /**
   * Later duplicates overwrite earlier ones: the value stored under a key is that of
   * the last selected field with that key.
   */
  lemma {:induction false} CollectLastWins(fields: seq<Value>, ids: set<Value>, kind: FieldKind, i: nat, k: Value)
    requires CollectFields(fields, ids, kind).Success?
    requires i < |fields| && Selected(fields[i], ids) && FieldKey(fields[i].fields, kind) == Some(k)
    requires forall j :: i < j < |fields| && Selected(fields[j], ids) ==> FieldKey(fields[j].fields, kind) != Some(k)
    ensures k in CollectFields(fields, ids, kind).value
    ensures FirstValue(fields[i].fields).Some?
    ensures CollectFields(fields, ids, kind).value[k] == FirstValue(fields[i].fields).value
    decreases |fields|
  {
    var init, last := fields[..|fields| - 1], fields[|fields| - 1];
    if i < |fields| - 1 {
      assert init[i] == fields[i];
      forall j | i < j < |init| && Selected(init[j], ids) ensures FieldKey(init[j].fields, kind) != Some(k) {
        assert init[j] == fields[j];
      }
      CollectLastWins(init, ids, kind, i, k);
    }
  }

  /** The contact's lower-cased field names are the only keys of its contact data. */
  lemma ContactKeysLowered(fields: seq<Value>, ids: set<Value>, k: Value)
    requires CollectFields(fields, ids, ContactField).Success? && k in CollectFields(fields, ids, ContactField).value
    ensures k.Str? && IsLowered(k.s)
  {
    CollectOnlySelected(fields, ids, ContactField, k);
  }

  /**
   * `response.get("custom_fields_values", default)` as the loop sees it: a list is iterated;
   * absent, or an empty dict or string, gives no fields; anything else raises.
   */
  function CustomFields(response: Value): (r: Result<seq<Value>, KommoError>)
    ensures response.Obj? && "custom_fields_values" !in response.fields ==> r == Success([])
    ensures (response.Obj? && "custom_fields_values" in response.fields && response.fields["custom_fields_values"].Arr?)
              ==> r == Success(response.fields["custom_fields_values"].items)
    ensures (response.Obj? && "custom_fields_values" in response.fields && response.fields["custom_fields_values"] == Null)
              ==> r.Failure?
  {
    if !response.Obj? then Failure(MalformedResponse)
    else if "custom_fields_values" !in response.fields then Success([])
    else match response.fields["custom_fields_values"]
      case Arr(items) => Success(items)
      case Obj(m) => if m == map[] then Success([]) else Failure(MalformedResponse)
      case Str(s) => if s == [] then Success([]) else Failure(MalformedResponse)
      case _ => Failure(MalformedResponse)
  }

  /**
   * The `for` loop of `_get_contact_data` and of `construct_raw_lead`: fills a dict from
   * the selected fields, in order.
   */
  method CollectCustomFields(fields: seq<Value>, ids: set<Value>, kind: FieldKind) returns (r: Result<map<Value, Value>, KommoError>)
    ensures r == CollectFields(fields, ids, kind)
  {
    var data: map<Value, Value> := map[];
    var i := 0;
    while i < |fields|
      invariant 0 <= i <= |fields|
      invariant CollectFields(fields[..i], ids, kind) == Success(data)
    {
      var field := fields[i];
      assert fields[..i + 1][..i] == fields[..i];
      if !field.Obj? || !Hashable(Get(field.fields, "field_id")) {
        CollectFailureSticks(fields, i + 1, ids, kind);
        return Failure(MalformedResponse);
      }
      if Get(field.fields, "field_id") in ids {
        var key := FieldKey(field.fields, kind);
        var value := FirstValue(field.fields);
        if key.None? || value.None? {
          CollectFailureSticks(fields, i + 1, ids, kind);
          return Failure(MalformedResponse);
        }
        data := data[key.value := value.value];
      }
      i := i + 1;
    }
    assert fields[..i] == fields;
    return Success(data);
  }

  /** What `_get_contact_data` returns for the contact response. */
  function ContactData(config: KommoConfig, contact: Value): (r: Result<map<Value, Value>, KommoError>)
    ensures contact.Obj? && "custom_fields_values" !in contact.fields ==> r == Success(map[])
  {
    match CustomFields(contact)
    case Failure(e) => Failure(e)
    case Success(fields) => CollectFields(fields, ContactFieldIds(config), ContactField)
  }

  /** `_get_contact_data`, given the response to `GET /contacts/<id>`. */
  method GetContactData(config: KommoConfig, contact: Value) returns (r: Result<map<Value, Value>, KommoError>)
    ensures r == ContactData(config, contact)
  {
    var fields := CustomFields(contact);
    if fields.Failure? {
      return Failure(fields.error);
    }
    r := CollectCustomFields(fields.value, ContactFieldIds(config), ContactField);
  }

  /** `lead_info["_embedded"]["contacts"][0]["id"]`, as `get_contact_info` reads it. */
  function ContactIdOf(lead: Value): (r: Result<Value, KommoError>)
    ensures r.Failure? ==> r.error == MalformedResponse
  {
    if lead.Obj? && "_embedded" in lead.fields && lead.fields["_embedded"].Obj?
       && "contacts" in lead.fields["_embedded"].fields
       && lead.fields["_embedded"].fields["contacts"].Arr?
       && |lead.fields["_embedded"].fields["contacts"].items| > 0
       && lead.fields["_embedded"].fields["contacts"].items[0].Obj?
       && "id" in lead.fields["_embedded"].fields["contacts"].items[0].fields
    then Success(lead.fields["_embedded"].fields["contacts"].items[0].fields["id"])
    else Failure(MalformedResponse)
  }

  /** A lead response whose embedded contact list is `contacts`, with the first contact's id `id`. */
  function LeadWithContacts(id: Value, first: map<string, Value>, contacts: seq<Value>): Value {
    Obj(map["_embedded" := Obj(map["contacts" := Arr([Obj(first["id" := id])] + contacts)])])
  }

  /** The contact id read from a lead is its first embedded contact's, whatever else that contact or the list holds. */
  lemma ContactIdRoundTrip(id: Value, first: map<string, Value>, contacts: seq<Value>)
    ensures ContactIdOf(LeadWithContacts(id, first, contacts)) == Success(id)
  {
    var items := [Obj(first["id" := id])] + contacts;
    assert items[0] == Obj(first["id" := id]);
  }

  /** `{**lead_data, **contact_data, **order_id}`: the order id wins over contact data, which wins over lead data. */
  function MergeRawLead(leadData: map<Value, Value>, contactData: map<Value, Value>, leadId: int): (r: map<Value, Value>)
    ensures r.Keys == leadData.Keys + contactData.Keys + {OrderIdKey}
    ensures r[OrderIdKey] == CreateOrderId(leadId)[OrderIdKey]
    ensures forall k :: k in contactData && k != OrderIdKey ==> r[k] == contactData[k]
    ensures forall k :: k in leadData && k !in contactData && k != OrderIdKey ==> r[k] == leadData[k]
  {
    leadData + contactData + CreateOrderId(leadId)
  }

  /** What `construct_raw_lead` returns, given the lead response and the response for the lead's contact. */
  function RawLead(config: KommoConfig, leadId: int, lead: Value, contact: Value): (r: Result<map<Value, Value>, KommoError>)
    // built exactly when the lead names a contact, the contact's fields are read, and every lead field is well formed
    ensures r.Success? <==>
      && ContactIdOf(lead).Success? && ContactData(config, contact).Success? && CustomFields(lead).Success?
      && forall i :: 0 <= i < |CustomFields(lead).value| ==> WellFormedField(CustomFields(lead).value[i], LeadFieldIds(config), LeadField)
    ensures r.Failure? ==> r.error == MalformedResponse
    // the lead's selected fields, the contact's, and the order id
    ensures r.Success? ==>
      r.value.Keys == CollectFields(CustomFields(lead).value, LeadFieldIds(config), LeadField).value.Keys
                      + ContactData(config, contact).value.Keys + {OrderIdKey}
  {
    if ContactIdOf(lead).Failure? then Failure(MalformedResponse)
    else match ContactData(config, contact)
      case Failure(e) => Failure(e)
      case Success(contactData) =>
        match CustomFields(lead)
        case Failure(e) => Failure(e)
        case Success(fields) =>
          match CollectFields(fields, LeadFieldIds(config), LeadField)
          case Failure(e) => Failure(e)
          case Success(leadData) => Success(MergeRawLead(leadData, contactData, leadId))
  }

  /**
   * `construct_raw_lead`: contact data first (through the lead's first contact), then the
   * lead's own selected fields, merged with the order id. Both `GET /leads/<id>` calls
   * are given the same response `lead`.
   */
  method ConstructRawLead(config: KommoConfig, leadId: int, lead: Value, contact: Value)
    returns (r: Result<map<Value, Value>, KommoError>)
    ensures r == RawLead(config, leadId, lead, contact)
  {
    var contactId := ContactIdOf(lead);
    if contactId.Failure? {
      return Failure(MalformedResponse);
    }
    var contactData := GetContactData(config, contact);
    if contactData.Failure? {
      return Failure(contactData.error);
    }
    var fields := CustomFields(lead);
    if fields.Failure? {
      return Failure(fields.error);
    }
    var leadData := CollectCustomFields(fields.value, LeadFieldIds(config), LeadField);
    if leadData.Failure? {
      return Failure(leadData.error);
    }
    return Success(MergeRawLead(leadData.value, contactData.value, leadId));
  }

  /** A raw lead always carries the order id; a contact's e-mail or phone beats a lead field of the same name. */
  lemma RawLeadPrecedence(config: KommoConfig, leadId: int, lead: Value, contact: Value)
    requires RawLead(config, leadId, lead, contact).Success?
    ensures var r := RawLead(config, leadId, lead, contact).value;
            var c := ContactData(config, contact).value;
            && r[OrderIdKey] == Str("order_" + IntToString(leadId))
            && (forall k :: k in c && k != OrderIdKey ==> r[k] == c[k])
  {
  }

  // ------------------------------------------------------------------ update_lead payload

  /** The `field_ids` names the payload reads, in its order. */
  const UpdateLeadKeys: seq<string> := ["source", "gclid", "gbraid", "page_path"]

  /** One `custom_fields_values` entry: a field id and a single value. */
  function FieldEntry(fieldId: Value, value: Value): Value {
    Obj(map["field_id" := fieldId, "values" := Arr([Obj(map["value" := value])])])
  }

  /** The first of the payload's `field_ids` names that the configuration lacks. */
  function FirstMissingKey(fieldIds: map<string, Value>): (k: Option<string>)
    ensures k.None? <==> forall i :: 0 <= i < |UpdateLeadKeys| ==> UpdateLeadKeys[i] in fieldIds
    ensures k.Some? ==> k.value !in fieldIds
    ensures k.Some? ==> exists i :: (0 <= i < |UpdateLeadKeys| && UpdateLeadKeys[i] == k.value
                                    && forall j :: 0 <= j < i ==> UpdateLeadKeys[j] in fieldIds)
  {
    if "source" !in fieldIds then
      assert UpdateLeadKeys[0] == "source";
      Some("source")
    else if "gclid" !in fieldIds then
      assert UpdateLeadKeys[1] == "gclid";
      Some("gclid")
    else if "gbraid" !in fieldIds then
      assert UpdateLeadKeys[2] == "gbraid";
      Some("gbraid")
    else if "page_path" !in fieldIds then
      assert UpdateLeadKeys[3] == "page_path";
      Some("page_path")
    else None
  }

  /**
   * The JSON body `update_lead` sends: four entries, for source, gclid, gbraid and
   * page_path in that order; `KeyError` on the first of those names missing from `field_ids`.
   */
  function UpdateLeadPayload(fieldIds: map<string, Value>, source: Value, gclid: Value, gbraid: Value, pagePath: Value)
    : (r: Result<Value, KommoError>)
    ensures r.Success? <==> FirstMissingKey(fieldIds).None?
    ensures r.Failure? ==> r.error == MissingFieldId(FirstMissingKey(fieldIds).value)
    ensures r.Success? ==> r.value.Obj? && r.value.fields.Keys == {"custom_fields_values"}
    ensures r.Success? ==> var entries := r.value.fields["custom_fields_values"];
              && entries.Arr? && |entries.items| == 4
              && forall i :: 0 <= i < 4 ==>
                   entries.items[i] == FieldEntry(fieldIds[UpdateLeadKeys[i]], [source, gclid, gbraid, pagePath][i])
  {
    match FirstMissingKey(fieldIds)
    case Some(k) => Failure(MissingFieldId(k))
    case None =>
      Success(Obj(map["custom_fields_values" := Arr([
        FieldEntry(fieldIds["source"], source),
        FieldEntry(fieldIds["gclid"], gclid),
        FieldEntry(fieldIds["gbraid"], gbraid),
        FieldEntry(fieldIds["page_path"], pagePath)])]))
  }

  /** The value a payload carries for a field id: that of its first entry with the id. */
  function ReadField(entries: seq<Value>, fieldId: Value): Option<Value> {
    if entries == [] then None
    else if entries[0].Obj? && Get(entries[0].fields, "field_id") == fieldId then
      var values := Get(entries[0].fields, "values");
      if values.Arr? && |values.items| > 0 && values.items[0].Obj? then Some(Get(values.items[0].fields, "value")) else None
    else ReadField(entries[1..], fieldId)
  }

  /** Reading entries built from ids and values gives the value of the first entry carrying the id. */
  lemma {:induction false} ReadFieldFirst(entries: seq<Value>, ids: seq<Value>, vals: seq<Value>, k: nat)
    requires |entries| == |ids| == |vals| && k < |ids|
    requires forall i :: 0 <= i < |ids| ==> entries[i] == FieldEntry(ids[i], vals[i])
    requires forall i :: 0 <= i < k ==> ids[i] != ids[k]
    ensures ReadField(entries, ids[k]) == Some(vals[k])
    decreases k
  {
    if k > 0 {
      assert Get(entries[0].fields, "field_id") == ids[0];
      ReadFieldFirst(entries[1..], ids[1..], vals[1..], k - 1);
    }
  }

  /** With four distinct field ids, the payload gives back each argument under its field's id. */
  lemma UpdateLeadPayloadReadBack(fieldIds: map<string, Value>, source: Value, gclid: Value, gbraid: Value, pagePath: Value)
    requires UpdateLeadPayload(fieldIds, source, gclid, gbraid, pagePath).Success?
    requires forall i, j :: 0 <= i < j < 4 ==> fieldIds[UpdateLeadKeys[i]] != fieldIds[UpdateLeadKeys[j]]
    ensures var entries := UpdateLeadPayload(fieldIds, source, gclid, gbraid, pagePath).value.fields["custom_fields_values"].items;
            && ReadField(entries, fieldIds["source"]) == Some(source)
            && ReadField(entries, fieldIds["gclid"]) == Some(gclid)
            && ReadField(entries, fieldIds["gbraid"]) == Some(gbraid)
            && ReadField(entries, fieldIds["page_path"]) == Some(pagePath)
  {
    var entries := UpdateLeadPayload(fieldIds, source, gclid, gbraid, pagePath).value.fields["custom_fields_values"].items;
    var ids := [fieldIds["source"], fieldIds["gclid"], fieldIds["gbraid"], fieldIds["page_path"]];
    var vals := [source, gclid, gbraid, pagePath];
    assert forall i :: 0 <= i < 4 ==> ids[i] == fieldIds[UpdateLeadKeys[i]];
    assert forall i, j :: 0 <= i < j < 4 ==> ids[i] != ids[j];
    ReadFieldFirst(entries, ids, vals, 0);
    ReadFieldFirst(entries, ids, vals, 1);
    ReadFieldFirst(entries, ids, vals, 2);
    ReadFieldFirst(entries, ids, vals, 3);
  }

  /** `update_lead`: a PATCH of the payload to the lead. */
  function UpdateLeadRequest(config: KommoConfig, leadId: int, source: Value, gclid: Value, gbraid: Value, pagePath: Value)
    : (r: Result<Request, KommoError>)
    ensures r.Success? <==> UpdateLeadPayload(config.fieldIds, source, gclid, gbraid, pagePath).Success?
    ensures r.Success? ==> r.value.httpMethod == "PATCH" && r.value.endpoint == "/leads/" + IntToString(leadId)
                           && r.value.body == UpdateLeadPayload(config.fieldIds, source, gclid, gbraid, pagePath).value
  {
    match UpdateLeadPayload(config.fieldIds, source, gclid, gbraid, pagePath)
    case Failure(e) => Failure(e)
    case Success(body) => Success(Request("PATCH", "/leads/" + IntToString(leadId), [], body))
  }

  /**
   * The call the click-log matcher makes for a CRM update: gbraid is left at its
   * default `None`, and so are gclid and page_path ("/") for an organic lead.
   */
  function CrmUpdateRequest(config: KommoConfig, u: ClickLog.CrmUpdate): (r: Result<Request, KommoError>)
    ensures r.Success? <==> FirstMissingKey(config.fieldIds).None?
    ensures r.Failure? ==> r.error == MissingFieldId(FirstMissingKey(config.fieldIds).value)
    ensures r.Success? ==> r.value.httpMethod == "PATCH" && r.value.endpoint == "/leads/" + IntToString(u.leadId)
  {
    UpdateLeadRequest(config, u.leadId, Str(u.source), u.gclid, Null, u.pagePath)
  }

  /** With distinct field ids, the PATCH carries the update's source, gclid and page path, and no gbraid. */
  lemma CrmUpdateReadBack(config: KommoConfig, u: ClickLog.CrmUpdate)
    requires FirstMissingKey(config.fieldIds).None?
    requires forall i, j :: 0 <= i < j < 4 ==> config.fieldIds[UpdateLeadKeys[i]] != config.fieldIds[UpdateLeadKeys[j]]
    ensures var entries := CrmUpdateRequest(config, u).value.body.fields["custom_fields_values"].items;
            && ReadField(entries, config.fieldIds["source"]) == Some(Str(u.source))
            && ReadField(entries, config.fieldIds["gclid"]) == Some(u.gclid)
            && ReadField(entries, config.fieldIds["gbraid"]) == Some(Null)
            && ReadField(entries, config.fieldIds["page_path"]) == Some(u.pagePath)
  {
    UpdateLeadPayloadReadBack(config.fieldIds, Str(u.source), u.gclid, Null, u.pagePath);
  }

  /** An organic update sends source "organic", no gclid or gbraid, and page path "/". */
  lemma OrganicUpdateDefaults(config: KommoConfig, leadId: int)
    requires FirstMissingKey(config.fieldIds).None?
    ensures var r := CrmUpdateRequest(config, ClickLog.OrganicUpdate(leadId));
            && r.Success?
            && r.value.body == UpdateLeadPayload(config.fieldIds, Str("organic"), Null, Null, Str("/")).value
  {
  }

  /**
   * The field ids the shipped configuration provides name only source, gclid and
   * page_path, so every `update_lead` raises `KeyError` on "gbraid".
   */
  lemma ShippedFieldIdsLackGbraid(fieldIds: map<string, Value>, source: Value, gclid: Value, gbraid: Value, pagePath: Value)
    requires fieldIds.Keys == {"source", "gclid", "page_path"}
    ensures UpdateLeadPayload(fieldIds, source, gclid, gbraid, pagePath) == Failure(MissingFieldId("gbraid"))
  {
    assert "gbraid" !in fieldIds;
  }

  /** Field ids naming every field the service reads. */
  predicate CompleteFieldIds(fieldIds: map<string, Value>) {
    forall k :: k in ServiceFieldNames ==> k in fieldIds
  }

  /** Every `field_ids` name the service looks up. */
  const ServiceFieldNames: seq<string> :=
    ["source", "gclid", "gbraid", "page_path", "phone", "email", "conversion_value", "currency_code", "conversion_time"]

  /** With complete field ids, every `update_lead` payload is built. */
  lemma CompleteFieldIdsBuildPayload(fieldIds: map<string, Value>, source: Value, gclid: Value, gbraid: Value, pagePath: Value)
    requires CompleteFieldIds(fieldIds)
    ensures UpdateLeadPayload(fieldIds, source, gclid, gbraid, pagePath).Success?
  {
    assert ServiceFieldNames[0] == "source" && ServiceFieldNames[1] == "gclid";
    assert ServiceFieldNames[2] == "gbraid" && ServiceFieldNames[3] == "page_path";
  }

  // ------------------------------------------------------------------ salesbot

  /** One element of the salesbot body; entity type 2 is a lead. */
  function SalesbotEntry(botId: Value, leadId: Value): Value {
    Obj(map["bot_id" := botId, "entity_id" := leadId, "entity_type" := Int(2)])
  }

  /** The list comprehension in `run_salesbot_on_leads`. */
  function SalesbotBody(botId: Value, leadIds: seq<Value>): (body: seq<Value>)
    ensures |body| == |leadIds|
    ensures forall i :: 0 <= i < |leadIds| ==> body[i] == SalesbotEntry(botId, leadIds[i])
  {
    seq(|leadIds|, i requires 0 <= i < |leadIds| => SalesbotEntry(botId, leadIds[i]))
  }

  /** Reads the lead ids back out of a salesbot body, if every element names a lead. */
  function EntityIds(body: seq<Value>, botId: Value): Option<seq<Value>> {
    if body == [] then Some([])
    else if body[0].Obj? && Get(body[0].fields, "bot_id") == botId && Get(body[0].fields, "entity_type") == Int(2)
            && "entity_id" in body[0].fields then
      match EntityIds(body[1..], botId)
      case None => None
      case Some(rest) => Some([body[0].fields["entity_id"]] + rest)
    else None
  }

  /** The body runs the one bot on exactly the given leads, in the given order. */
  lemma {:induction false} SalesbotBodyRoundTrip(botId: Value, leadIds: seq<Value>)
    ensures EntityIds(SalesbotBody(botId, leadIds), botId) == Some(leadIds)
  {
    if leadIds != [] {
      var body := SalesbotBody(botId, leadIds);
      assert body[1..] == SalesbotBody(botId, leadIds[1..]);
      SalesbotBodyRoundTrip(botId, leadIds[1..]);
      assert leadIds == [leadIds[0]] + leadIds[1..];
    }
  }

  /** `run_salesbot_on_leads`: a POST of the body to the "/salesbot/run" endpoint of API version v2. */
  function SalesbotRequest(config: KommoConfig, botId: Value, leadIds: seq<Value>): (r: (string, seq<Value>))
    ensures r.0 == BuildUrl(config, "/salesbot/run", "v2")
    ensures EntityIds(r.1, botId) == Some(leadIds)
  {
    SalesbotBodyRoundTrip(botId, leadIds);
    (BuildUrl(config, "/salesbot/run", "v2"), SalesbotBody(botId, leadIds))
  }

  // ------------------------------------------------------------------ query parameters

  /** The value of the first parameter named `key`. */
  function Lookup(params: seq<(string, Value)>, key: string): Option<Value> {
    if params == [] then None
    else if params[0].0 == key then Some(params[0].1)
    else Lookup(params[1..], key)
  }

  /** `get_incoming_leads`' params dict, in insertion order. */
  function IncomingLeadsParams(config: KommoConfig, isSorted: bool, filterPipeline: bool, page: Value, limit: Value)
    : (params: seq<(string, Value)>)
    ensures 2 <= |params| <= 4 && params[0] == ("limit", limit) && params[1] == ("page", page)
  {
    [("limit", limit), ("page", page)]
    + (if isSorted then [("order[created_at]", Str("desc"))] else [])
    + (if filterPipeline then [("filter[pipeline_id]", config.targetPipelineId)] else [])
  }

  /** Looking up in a concatenation looks in the first part, then in the second. */
  lemma {:induction false} LookupAppend(p: seq<(string, Value)>, q: seq<(string, Value)>, key: string)
    ensures Lookup(p + q, key) == if Lookup(p, key).Some? then Lookup(p, key) else Lookup(q, key)
  {
    if p == [] {
      assert p + q == q;
    } else {
      assert (p + q)[0] == p[0] && (p + q)[1..] == p[1..] + q;
      LookupAppend(p[1..], q, key);
    }
  }

  /** `limit` and `page` are always sent; the sort order iff `is_sorted`; the pipeline filter iff `filter_pipeline`. */
  lemma IncomingLeadsParamsLookup(config: KommoConfig, isSorted: bool, filterPipeline: bool, page: Value, limit: Value)
    ensures var params := IncomingLeadsParams(config, isSorted, filterPipeline, page, limit);
            && Lookup(params, "limit") == Some(limit) && Lookup(params, "page") == Some(page)
            && Lookup(params, "order[created_at]") == (if isSorted then Some(Str("desc")) else None)
            && Lookup(params, "filter[pipeline_id]") == (if filterPipeline then Some(config.targetPipelineId) else None)
  {
    var fixed: seq<(string, Value)> := [("limit", limit), ("page", page)];
    var sort: seq<(string, Value)> := if isSorted then [("order[created_at]", Str("desc"))] else [];
    var filter: seq<(string, Value)> := if filterPipeline then [("filter[pipeline_id]", config.targetPipelineId)] else [];
    assert IncomingLeadsParams(config, isSorted, filterPipeline, page, limit) == fixed + sort + filter;
    forall key: string {:trigger Lookup(fixed, key)} ensures Lookup(fixed + sort + filter, key) ==
        if Lookup(fixed, key).Some? then Lookup(fixed, key)
        else if Lookup(sort, key).Some? then Lookup(sort, key) else Lookup(filter, key) {
      LookupAppend(fixed + sort, filter, key);
      LookupAppend(fixed, sort, key);
    }
    assert fixed[1..] == [("page", page)] && fixed[1..][1..] == [];
    assert Lookup(fixed[1..], "order[created_at]") == None && Lookup(fixed[1..], "filter[pipeline_id]") == None;
    assert Lookup(fixed, "order[created_at]") == None && Lookup(fixed, "filter[pipeline_id]") == None;
    assert Lookup(sort, "filter[pipeline_id]") == None;
    assert Lookup(sort, "order[created_at]") == if isSorted then Some(Str("desc")) else None;
    assert Lookup(filter, "order[created_at]") == None;
  }

  /** `get_incoming_leads`. */
  function IncomingLeadsRequest(config: KommoConfig, isSorted: bool, filterPipeline: bool, page: Value, limit: Value): Request {
    Request("GET", "/leads/unsorted", IncomingLeadsParams(config, isSorted, filterPipeline, page, limit), Null)
  }

  /** With its defaults the call asks for the ten newest incoming leads of the target pipeline, first page. */
  lemma IncomingLeadsDefaults(config: KommoConfig)
    ensures IncomingLeadsParams(config, true, true, Int(1), Int(10)) ==
      [("limit", Int(10)), ("page", Int(1)), ("order[created_at]", Str("desc")), ("filter[pipeline_id]", config.targetPipelineId)]
  {
  }

  /** `_get_lead_ids_by_pipeline`'s params: one pipeline stage, closest task within a time window. */
  function LeadsByPipelineParams(pipelineId: Value, stageId: Value, startsAt: Value, endsAt: Value): (params: seq<(string, Value)>)
    ensures |params| == 4
    ensures Lookup(params, "filter[statuses][0][pipeline_id]") == Some(pipelineId)
    ensures Lookup(params, "filter[statuses][0][status_id]") == Some(stageId)
    ensures Lookup(params, "filter[closest_task_at][from]") == Some(startsAt)
    ensures Lookup(params, "filter[closest_task_at][to]") == Some(endsAt)
  {
    var params := [("filter[statuses][0][pipeline_id]", pipelineId),
                   ("filter[statuses][0][status_id]", stageId),
                   ("filter[closest_task_at][from]", startsAt),
                   ("filter[closest_task_at][to]", endsAt)];
    assert params[1..][1..] == params[2..] && params[2..][1..] == params[3..];
    assert Lookup(params[2..], "filter[closest_task_at][from]") == Some(startsAt);
    assert Lookup(params[2..], "filter[closest_task_at][to]") == Some(endsAt);
    params
  }

  // ------------------------------------------------------------------ lead ids

  /** `map(lambda lead: lead["id"], leads)`, forced by `list`: raises on the first lead without an id. */
  function IdsOf(leads: seq<Value>): (r: Result<seq<Value>, KommoError>)
    ensures r.Success? <==> forall i :: 0 <= i < |leads| ==> leads[i].Obj? && "id" in leads[i].fields
    ensures r.Success? ==> |r.value| == |leads| && forall i :: 0 <= i < |leads| ==> r.value[i] == leads[i].fields["id"]
    ensures r.Failure? ==> r.error == MalformedResponse
  {
    if leads == [] then Success([])
    else if !(leads[0].Obj? && "id" in leads[0].fields) then Failure(MalformedResponse)
    else match IdsOf(leads[1..])
      case Failure(e) =>
        assert forall i :: 0 <= i < |leads| - 1 ==> leads[1..][i] == leads[i + 1];
        Failure(e)
      case Success(rest) =>
        assert forall i :: 1 <= i < |leads| ==> leads[i] == leads[1..][i - 1];
        Success([leads[0].fields["id"]] + rest)
  }

  /** What iterating `response["_embedded"]["leads"]` yields: a list's items, nothing for an empty dict or string. */
  function EmbeddedLeads(response: Value): (r: Result<seq<Value>, KommoError>)
    ensures r.Failure? ==> r.error == MalformedResponse
    // `response["_embedded"]["leads"]` raises unless both keys are there
    ensures r.Success? ==> response.Obj? && "_embedded" in response.fields && response.fields["_embedded"].Obj?
                           && "leads" in response.fields["_embedded"].fields
    ensures r.Success? && response.fields["_embedded"].fields["leads"].Arr? ==>
      r.value == response.fields["_embedded"].fields["leads"].items
  {
    if response.Obj? && "_embedded" in response.fields && response.fields["_embedded"].Obj?
       && "leads" in response.fields["_embedded"].fields then
      match response.fields["_embedded"].fields["leads"]
      case Arr(items) => Success(items)
      case Obj(m) => if m == map[] then Success([]) else Failure(MalformedResponse)
      case Str(s) => if s == [] then Success([]) else Failure(MalformedResponse)
      case _ => Failure(MalformedResponse)
    else Failure(MalformedResponse)
  }

  /** What `_get_lead_ids_by_pipeline` returns for the response to `GET /leads`. */
  function LeadIdsByPipeline(response: Value): (r: Result<seq<Value>, KommoError>)
    // one id per listed lead, in order; raises if any lead lacks an id
    ensures r.Success? <==>
      && EmbeddedLeads(response).Success?
      && forall i :: 0 <= i < |EmbeddedLeads(response).value| ==>
           EmbeddedLeads(response).value[i].Obj? && "id" in EmbeddedLeads(response).value[i].fields
    ensures r.Success? ==> var leads := EmbeddedLeads(response).value;
              && |r.value| == |leads|
              && forall i :: 0 <= i < |leads| ==> r.value[i] == leads[i].fields["id"]
    ensures r.Failure? ==> r.error == MalformedResponse
  {
    match EmbeddedLeads(response)
    case Failure(e) => Failure(e)
    case Success(leads) => IdsOf(leads)
  }

  /** The response that lists the given leads. */
  function LeadsResponse(ids: seq<Value>): Value {
    Obj(map["_embedded" := Obj(map["leads" := Arr(seq(|ids|, i requires 0 <= i < |ids| => Obj(map["id" := ids[i]])))])])
  }

  /** The ids come back in the order and number the response lists them. */
  lemma LeadIdsRoundTrip(ids: seq<Value>)
    ensures LeadIdsByPipeline(LeadsResponse(ids)) == Success(ids)
  {
    var leads := seq(|ids|, i requires 0 <= i < |ids| => Obj(map["id" := ids[i]]));
    assert EmbeddedLeads(LeadsResponse(ids)) == Success(leads);
    var r := IdsOf(leads);
    assert r.Success?;
    assert r.value == ids;
  }
}
