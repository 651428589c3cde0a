/**
 * The AWS Lambda entry point: it logs ad clicks into a DynamoDB table and, when a
 * lead arrives, matches the lead with the newest click or classifies it as organic.
 *
 * The table's primary key is ("pk", "expires_at"). Every record is written with
 * pk "click", so the table is modelled as a map from `expires_at` to the record.
 * The CRM (`kommo_service.update_lead`) is represented by the log of the updates
 * it accepted. Whether each external call succeeds is a parameter.
 */
module ClickLog {
  import opened Wrappers
  import opened Json

  /** The partition key that every click record carries. */
  const ClickPk := "click"

  /** One item of the click-log table. */
  datatype ClickRecord = ClickRecord(
    pk: string,
    pagePath: Value,   // body.get("page_path"): may be None
    gclid: Value,
    createdAt: nat,
    expiresAt: nat,
    matched: bool)

  /**
   * A handler's result dictionary. `statusKey` is the dictionary key under which
   * the status code is stored: the 400 result spells it "statucCode".
   */
  datatype Response = Response(statusKey: string, statusCode: int, message: string)

  /** The arguments of one accepted `kommo_service.update_lead` call. */
  datatype CrmUpdate = CrmUpdate(leadId: int, source: string, gclid: Value, pagePath: Value)

  /** The Lambda event fields the handler reads. `rawPath` is None when the key is absent. */
  datatype Event = Event(rawPath: Option<string>, httpMethod: string, body: map<string, Value>)

  datatype Route = ClickLogRoute | UpdateLeadRoute | InvalidPath

  // ------------------------------------------------------------------ routing

  /** Only two (path, method) pairs reach a handler; everything else is "Invalid path". */
  function RouteOf(e: Event): (r: Route)
    ensures r == ClickLogRoute <==> e.rawPath == Some("/outbound-click-logs") && e.httpMethod == "POST"
    ensures r == UpdateLeadRoute <==> e.rawPath == Some("/update-lead") && e.httpMethod == "POST"
    ensures e.httpMethod != "POST" ==> r == InvalidPath
  {
    var path := e.rawPath.GetOr("/");
    if path == "/outbound-click-logs" && e.httpMethod == "POST" then ClickLogRoute
    else if path == "/update-lead" && e.httpMethod == "POST" then UpdateLeadRoute
    else InvalidPath
  }

  const NotFoundResponse := Response("statusCode", 404, "Invalid path")
  const MissingGclidResponse := Response("statucCode", 400, "Missing required parameter gclid")
  const PersistedResponse := Response("statusCode", 200, "Click log persisted successfully.")
  const PersistFailedResponse := Response("statusCode", 500, "Something went wrong while persisting the click log.")
  const OrganicResponse := Response("statusCode", 200, "Lead updated with organic source.")
  const OrganicFailedResponse := Response("statusCode", 500, "Lead with organic source could not be updated.")
  const CpcResponse := Response("statusCode", 200, "Lead updated with matched gclid.")
  const CpcFailedResponse := Response("statusCode", 500, "Lead with cpc source could not be updated.")

  // ------------------------------------------------------------------ records

  /** The item `persist_clicklog_to_db` writes for a click body received at `now`. */
  function NewClickRecord(body: map<string, Value>, now: nat, ttlMinutes: nat): (c: ClickRecord)
    ensures c.pk == ClickPk && !c.matched
    ensures c.createdAt == now && c.expiresAt - c.createdAt == 60 * ttlMinutes
    ensures c.gclid == Get(body, "gclid") && c.pagePath == Get(body, "page_path")
  {
    ClickRecord(ClickPk, Get(body, "page_path"), Get(body, "gclid"), now, now + 60 * ttlMinutes, false)
  }

  /** `put_item`: the record lands under its own `expires_at`, replacing any record there. */
  function Put(table: map<nat, ClickRecord>, c: ClickRecord): (t: map<nat, ClickRecord>)
    ensures t.Keys == table.Keys + {c.expiresAt}
    ensures t[c.expiresAt] == c
    ensures forall k :: k in table && k != c.expiresAt ==> t[k] == table[k]
  {
    table[c.expiresAt := c]
  }

  /** `update_item(Key=..., SET matched = true)`: a point update of one record's flag. */
  function MarkMatched(table: map<nat, ClickRecord>, key: nat): (t: map<nat, ClickRecord>)
    requires key in table
    ensures t.Keys == table.Keys
    ensures t[key].matched && t[key] == table[key].(matched := true)
    ensures forall k :: k in table && k != key ==> t[k] == table[k]
  {
    table[key := table[key].(matched := true)]
  }

  /** Marking a record twice is the same as marking it once. */
  lemma MarkMatchedIdempotent(table: map<nat, ClickRecord>, key: nat)
    requires key in table
    ensures MarkMatched(MarkMatched(table, key), key) == MarkMatched(table, key)
  {
  }

  // ------------------------------------------------------------------ the query

  /** The greatest `expires_at` in a non-empty key set. */
  ghost function NewestKey(keys: set<nat>): (k: nat)
    requires keys != {}
    ensures k in keys
    ensures forall j :: j in keys ==> j <= k
  {
    assert |keys| > 0;
    var x :| x in keys;
    var rest := keys - {x};
    assert forall j :: j in keys ==> j == x || j in rest;
    if rest == {} then x
    else
      var m := NewestKey(rest);
      if x < m then m else x
  }

  /**
   * What the query `pk = "click"`, newest first, `Limit=1`, filter `matched = false`
   * returns. DynamoDB applies the limit before the filter, so only the newest record
   * is read, and it comes back only if it is still unmatched.
   */
  ghost function LatestUnmatched(table: map<nat, ClickRecord>): (r: Option<nat>)
    ensures r.Some? ==> r.value in table && !table[r.value].matched
    ensures r.Some? ==> forall k :: k in table ==> k <= r.value
    ensures r.None? <==> table == map[] || table[NewestKey(table.Keys)].matched
  {
    if table == map[] then None
    else
      var k := NewestKey(table.Keys);
      if table[k].matched then None else Some(k)
  }

  /** The items list the query hands to `update_lead`. */
  ghost function QueryItems(table: map<nat, ClickRecord>): (items: seq<ClickRecord>)
    ensures |items| <= 1
    ensures forall i :: 0 <= i < |items| ==> !items[i].matched && items[i] in table.Values
  {
    match LatestUnmatched(table)
    case None => []
    case Some(k) => [table[k]]
  }

  /** An older unmatched click is never found while a newer click is already matched. */
  lemma {:induction false} OlderUnmatchedHidden(table: map<nat, ClickRecord>, older: nat, newer: nat)
    requires older in table && newer in table && older < newer
    requires !table[older].matched && table[newer].matched
    requires forall k :: k in table ==> k <= newer
    ensures QueryItems(table) == []
  {
    assert NewestKey(table.Keys) == newer;
  }

  /** Once the newest click has been matched, the next lead finds nothing. */
  lemma {:induction false} MatchedNewestHidesAll(table: map<nat, ClickRecord>)
    requires LatestUnmatched(table).Some?
    ensures LatestUnmatched(MarkMatched(table, LatestUnmatched(table).value)).None?
  {
    var k := LatestUnmatched(table).value;
    var t := MarkMatched(table, k);
    assert t.Keys == table.Keys;
    assert NewestKey(t.Keys) == k;
  }

  /** A click newer than every stored one is what the next query returns. */
  lemma {:induction false} PutNewestIsFound(table: map<nat, ClickRecord>, c: ClickRecord)
    requires !c.matched
    requires forall k :: k in table ==> k < c.expiresAt
    ensures LatestUnmatched(Put(table, c)) == Some(c.expiresAt)
    ensures QueryItems(Put(table, c)) == [c]
  {
    var t := Put(table, c);
    assert NewestKey(t.Keys) == c.expiresAt;
  }

  // ------------------------------------------------------------------ handler outcomes

  /** The table and the result after `click_log_handler`. */
  datatype ClickOutcome = ClickOutcome(table: map<nat, ClickRecord>, response: Response)

  /** The table, the CRM log and the (possibly missing) result after `update_lead_handler`. */
  datatype LeadOutcome = LeadOutcome(table: map<nat, ClickRecord>, crmUpdates: seq<CrmUpdate>, response: Option<Response>)

  /** `kommo_service.update_lead(lead_id, source="organic")`: gclid defaults to None, page_path to "/". */
  function OrganicUpdate(leadId: int): CrmUpdate {
    CrmUpdate(leadId, "organic", Null, Str("/"))
  }

  /** `kommo_service.update_lead(lead_id, source="cpc", gclid=..., page_path=...)` for a click. */
  function CpcUpdate(leadId: int, c: ClickRecord): CrmUpdate {
    CrmUpdate(leadId, "cpc", c.gclid, c.pagePath)
  }

  /**
   * What a click body does to the table: a body without a truthy gclid is refused
   * with 400 and the table is left alone; otherwise one record is written (500 if
   * the write raised, in which case nothing is written).
   */
  function LogClick(table: map<nat, ClickRecord>, body: map<string, Value>, now: nat, ttlMinutes: nat, putOk: bool): (o: ClickOutcome)
    ensures !Truthy(Get(body, "gclid")) ==> o == ClickOutcome(table, MissingGclidResponse)
    ensures o.response.statusCode == 200 <==> Truthy(Get(body, "gclid")) && putOk
    ensures o.response.statusCode == 200 ==>
      o.table.Keys == table.Keys + {now + 60 * ttlMinutes} &&
      o.table[now + 60 * ttlMinutes] == NewClickRecord(body, now, ttlMinutes) &&
      forall k :: k in table && k != now + 60 * ttlMinutes ==> o.table[k] == table[k]
    ensures o.response.statusCode != 200 ==> o.table == table
  {
    if !Truthy(Get(body, "gclid")) then ClickOutcome(table, MissingGclidResponse)
    else if putOk then ClickOutcome(Put(table, NewClickRecord(body, now, ttlMinutes)), PersistedResponse)
    else ClickOutcome(table, PersistFailedResponse)
  }

  /**
   * What a lead event does: no candidate means organic; a candidate with
   * `now <= expires_at` is marked matched and then reported as cpc; an expired
   * candidate changes nothing and yields no result.
   */
  ghost function MatchLead(table: map<nat, ClickRecord>, crm: seq<CrmUpdate>, leadId: int, now: nat, crmOk: bool): (o: LeadOutcome)
    // the key set never changes, and at most the one candidate record changes, only its flag
    ensures o.table.Keys == table.Keys
    ensures forall k :: k in table ==>
      o.table[k] == table[k] ||
      (LatestUnmatched(table) == Some(k) && now <= k && o.table[k] == table[k].(matched := true))
    // an expired or already matched record is never touched
    ensures forall k :: k in table && (now > k || table[k].matched) ==> o.table[k] == table[k]
    // the CRM log only grows, by at most one update, and only when the call succeeded
    ensures |o.crmUpdates| == |crm| + (if crmOk && o.response.Some? then 1 else 0)
    ensures o.crmUpdates[..|crm|] == crm
    // cpc is reported exactly for the record that was matched; organic exactly when there was no candidate
    ensures forall i :: |crm| <= i < |o.crmUpdates| ==>
      (o.crmUpdates[i].source == "cpc" <==> o.table != table) &&
      (o.crmUpdates[i].source == "organic" <==> LatestUnmatched(table).None?)
    // the mark precedes the CRM call: a failed CRM call after a match still leaves it matched
    ensures o.response == Some(CpcFailedResponse) ==> o.table != table && o.crmUpdates == crm
    ensures o.response.None? <==> (LatestUnmatched(table).Some? && now > LatestUnmatched(table).value)
    // no candidate: the lead is reported organic and the table is left alone
    ensures LatestUnmatched(table).None? ==>
      && o.table == table
      && o.crmUpdates == crm + (if crmOk then [OrganicUpdate(leadId)] else [])
      && o.response == Some(if crmOk then OrganicResponse else OrganicFailedResponse)
    // an unexpired candidate is marked, then reported as cpc with its gclid and page path
    ensures LatestUnmatched(table).Some? && now <= LatestUnmatched(table).value ==>
      var k := LatestUnmatched(table).value;
      && o.table == MarkMatched(table, k)
      && o.crmUpdates == crm + (if crmOk then [CpcUpdate(leadId, table[k])] else [])
      && o.response == Some(if crmOk then CpcResponse else CpcFailedResponse)
    // an expired candidate changes nothing
    ensures LatestUnmatched(table).Some? && now > LatestUnmatched(table).value ==> o == LeadOutcome(table, crm, None)
  {
    match LatestUnmatched(table)
    case None =>
      LeadOutcome(table, crm + (if crmOk then [OrganicUpdate(leadId)] else []),
                  Some(if crmOk then OrganicResponse else OrganicFailedResponse))
    case Some(k) =>
      if now <= k then
        var t := MarkMatched(table, k);
        assert t[k] != table[k];
        LeadOutcome(t, crm + (if crmOk then [CpcUpdate(leadId, table[k])] else []),
                    Some(if crmOk then CpcResponse else CpcFailedResponse))
      else
        LeadOutcome(table, crm, None)
  }

  /** A second lead right after a successful match finds no candidate and is organic. */
  lemma {:induction false} SecondLeadIsOrganic(table: map<nat, ClickRecord>, crm: seq<CrmUpdate>, lead1: int, lead2: int, now: nat, later: nat)
    requires LatestUnmatched(table).Some? && now <= LatestUnmatched(table).value
    ensures var o1 := MatchLead(table, crm, lead1, now, true);
            var o2 := MatchLead(o1.table, o1.crmUpdates, lead2, later, true);
            o2.table == o1.table && o2.crmUpdates == o1.crmUpdates + [OrganicUpdate(lead2)]
  {
    MatchedNewestHidesAll(table);
  }

  // ------------------------------------------------------------------ the service

  /** The module-level state of the Lambda: the click-log table and the CRM it updates. */
  class ClickLogService {
    /** CLICK_LOG_TTL_MINUTES. */
    const ttlMinutes: nat
    /** The click-log table, keyed by `expires_at` (pk is always "click"). */
    var table: map<nat, ClickRecord>
    /** The lead updates the CRM has accepted, oldest first. */
    var crmUpdates: seq<CrmUpdate>

    /** Each record sits under its own `expires_at`, has pk "click", and expires TTL after creation. */
    ghost predicate Valid()
      reads this
    {
      forall k :: k in table ==>
        table[k].pk == ClickPk && table[k].expiresAt == k
        && table[k].expiresAt == table[k].createdAt + 60 * ttlMinutes
    }

    constructor (ttlMinutes: nat)
      ensures Valid()
      ensures this.ttlMinutes == ttlMinutes && table == map[] && crmUpdates == []
    {
      this.ttlMinutes := ttlMinutes;
      table := map[];
      crmUpdates := [];
    }

    /**
     * `lambda_handler`: dispatches on path and method. The update-lead route may
     * produce no result at all (an expired candidate), hence the Option.
     */
    method LambdaHandler(e: Event, now: nat, putOk: bool, leadId: int, crmOk: bool) returns (r: Option<Response>)
      requires Valid()
      modifies this
      ensures Valid()
      ensures RouteOf(e) == InvalidPath ==>
        r == Some(NotFoundResponse) && table == old(table) && crmUpdates == old(crmUpdates)
      ensures RouteOf(e) == ClickLogRoute ==>
        r.Some? && ClickOutcome(table, r.value) == LogClick(old(table), e.body, now, ttlMinutes, putOk) &&
        crmUpdates == old(crmUpdates)
      ensures RouteOf(e) == UpdateLeadRoute ==>
        LeadOutcome(table, crmUpdates, r) == MatchLead(old(table), old(crmUpdates), leadId, now, crmOk)
    {
      match RouteOf(e)
      case ClickLogRoute =>
        var res := ClickLogHandler(e.body, now, putOk);
        r := Some(res);
      case UpdateLeadRoute =>
        r := UpdateLeadHandler(leadId, now, crmOk);
      case InvalidPath =>
        r := Some(NotFoundResponse);
    }

    /** `click_log_handler`: a body without a truthy gclid is refused before the table is touched. */
    method ClickLogHandler(body: map<string, Value>, now: nat, putOk: bool) returns (r: Response)
      requires Valid()
      modifies this
      ensures Valid() && crmUpdates == old(crmUpdates)
      ensures ClickOutcome(table, r) == LogClick(old(table), body, now, ttlMinutes, putOk)
    {
      if !Truthy(Get(body, "gclid")) {
        return MissingGclidResponse;
      }
      r := PersistClickLog(body, now, putOk);
    }

    /**
     * `persist_clicklog_to_db`: writes a fresh unmatched record expiring TTL minutes
     * after `now`. `putOk` is false when `put_item` raised.
     */
    method PersistClickLog(body: map<string, Value>, now: nat, putOk: bool) returns (r: Response)
      requires Valid()
      modifies this`table
      ensures Valid()
      ensures putOk ==> table == Put(old(table), NewClickRecord(body, now, ttlMinutes)) && r == PersistedResponse
      ensures !putOk ==> table == old(table) && r == PersistFailedResponse
    {
      if !putOk {
        return PersistFailedResponse;
      }
      var c := NewClickRecord(body, now, ttlMinutes);
      table := table[c.expiresAt := c];
      r := PersistedResponse;
    }

    /**
     * The DynamoDB query of `update_lead_handler`: scans keys for the newest record
     * and returns it if it is unmatched. Reads the table and changes nothing.
     */
    method QueryLatestUnmatched() returns (items: seq<ClickRecord>)
      ensures items == QueryItems(table)
      ensures |items| <= 1
      ensures forall i :: 0 <= i < |items| ==> !items[i].matched
    {
      if table == map[] {
        return [];
      }
      var rest := table.Keys;
      assert |rest| > 0;
      var newest :| newest in rest;
      rest := rest - {newest};
      while rest != {}
        invariant rest <= table.Keys && newest in table
        invariant forall k :: k in table && k !in rest ==> k <= newest
        decreases rest
      {
        assert |rest| > 0;
        var k :| k in rest;
        if newest < k {
          newest := k;
        }
        rest := rest - {k};
      }
      assert newest == NewestKey(table.Keys);
      if table[newest].matched {
        items := [];
      } else {
        items := [table[newest]];
      }
    }

    /** `update_lead_handler`: the query, then `update_lead` on its result. */
    method UpdateLeadHandler(leadId: int, now: nat, crmOk: bool) returns (r: Option<Response>)
      requires Valid()
      modifies this
      ensures Valid()
      ensures LeadOutcome(table, crmUpdates, r) == MatchLead(old(table), old(crmUpdates), leadId, now, crmOk)
    {
      var items := QueryLatestUnmatched();
      r := UpdateLead(items, leadId, now, crmOk);
    }

    /**
     * `update_lead`: with no candidate the lead is organic; with a candidate that has
     * not expired (`now <= expires_at`) the record is marked first and the CRM then
     * gets source "cpc" with the click's gclid and page path; with an expired
     * candidate nothing happens and there is no result.
     */
    method UpdateLead(items: seq<ClickRecord>, leadId: int, now: nat, crmOk: bool) returns (r: Option<Response>)
      requires Valid()
      requires items != [] ==> items[0].expiresAt in table
      modifies this
      ensures Valid()
      ensures items == [] ==>
        table == old(table) &&
        crmUpdates == old(crmUpdates) + (if crmOk then [OrganicUpdate(leadId)] else []) &&
        r == Some(if crmOk then OrganicResponse else OrganicFailedResponse)
      ensures items != [] && now <= items[0].expiresAt ==>
        table == MarkMatched(old(table), items[0].expiresAt) &&
        crmUpdates == old(crmUpdates) + (if crmOk then [CpcUpdate(leadId, items[0])] else []) &&
        r == Some(if crmOk then CpcResponse else CpcFailedResponse)
      ensures items != [] && now > items[0].expiresAt ==>
        table == old(table) && crmUpdates == old(crmUpdates) && r == None
    {
      if items == [] {
        if crmOk {
          crmUpdates := crmUpdates + [OrganicUpdate(leadId)];
          return Some(OrganicResponse);
        }
        return Some(OrganicFailedResponse);
      }
      if now <= items[0].expiresAt {
        var key := items[0].expiresAt;
        table := table[key := table[key].(matched := true)];
        if crmOk {
          crmUpdates := crmUpdates + [CpcUpdate(leadId, items[0])];
          return Some(CpcResponse);
        }
        return Some(CpcFailedResponse);
      }
      r := None;
    }
  }

  // ------------------------------------------------------------------ scenarios

  /** A click logged at t0 with a 15-minute TTL is matched by a lead five minutes later. */
  method ScenarioLeadWithinWindow(t0: nat, leadId: int)
  {
    var svc := new ClickLogService(15);
    var body := map["gclid" := Str("abc"), "page_path" := Str("/landing")];
    var res := svc.ClickLogHandler(body, t0, true);
    assert res == PersistedResponse;
    var c := NewClickRecord(body, t0, 15);
    assert svc.table == map[t0 + 900 := c];
    assert NewestKey(svc.table.Keys) == t0 + 900;
    assert QueryItems(svc.table) == [c];
    var out := svc.UpdateLeadHandler(leadId, t0 + 300, true);
    assert out == Some(CpcResponse);
    assert svc.crmUpdates == [CrmUpdate(leadId, "cpc", Str("abc"), Str("/landing"))];
    assert svc.table[t0 + 900].matched;
  }

  /** The same click, with the lead arriving one second after the click expired: nothing happens, no result. */
  method ScenarioLeadAfterExpiry(t0: nat, leadId: int)
  {
    var svc := new ClickLogService(15);
    var body := map["gclid" := Str("abc"), "page_path" := Str("/landing")];
    var res := svc.ClickLogHandler(body, t0, true);
    var c := NewClickRecord(body, t0, 15);
    assert svc.table == map[t0 + 900 := c];
    assert NewestKey(svc.table.Keys) == t0 + 900;
    assert QueryItems(svc.table) == [c];
    var out := svc.UpdateLeadHandler(leadId, t0 + 901, true);
    assert out == None;
    assert svc.crmUpdates == [] && !svc.table[t0 + 900].matched;
  }

  /** A body without gclid is refused and the next lead, finding no click, is organic. */
  method ScenarioNoClickIsOrganic(t0: nat, leadId: int)
  {
    var svc := new ClickLogService(15);
    var res := svc.ClickLogHandler(map["page_path" := Str("/landing")], t0, true);
    assert res == MissingGclidResponse && svc.table == map[];
    var out := svc.UpdateLeadHandler(leadId, t0, true);
    assert out == Some(OrganicResponse);
    assert svc.crmUpdates == [CrmUpdate(leadId, "organic", Null, Str("/"))];
  }
}
