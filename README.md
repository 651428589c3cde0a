# Kommo → Google Ads offline conversions, modelled in Dafny

This project models the core of the Kommo/Google Ads offline-conversion service in Dafny. The service:

- logs Google Ads clicks from a landing page into a DynamoDB table;
- matches each new Kommo CRM lead with the newest click, and tags the lead as `cpc` with its gclid, or as `organic`;
- builds the click-conversion messages it uploads to Google Ads, with hashed e-mail and phone identifiers;
- reads and writes Kommo leads and contacts over its REST API.

The project has five modules:

- `ClickLog.dfy` covers the AWS Lambda (`app/aws-lambda/lambda_function.py`).
  - `ClickLogService` is a class. It holds the click-log table, keyed by `expires_at` because every record has pk `"click"`, and the log of CRM updates that were accepted.
  - Its methods are the handler, the click persister, the query and the matcher.
  - Each method is proved against a function on the table: `LogClick`, `LatestUnmatched` and `MatchLead`.
  - The query is modelled as DynamoDB runs it. `Limit=1` applies before the `matched = false` filter, so only the newest record is ever looked at.
- `GoogleAds.dfy` covers `GoogleAdsService` (`app/services/google_ads_service.py`):
  - the conversion-type table;
  - `ClickConversion`, a class whose fields are set one at a time, and its identifier list;
  - the e-mail and phone normalisers;
  - the UTC+3 time rendering. This is checked against a proleptic Gregorian calendar (`Calendar.dfy`) and a parser that reads the rendering back.
- `Kommo.dfy` covers `KommoService` (`app/services/kommo_service.py`), with every HTTP response passed in as a JSON value:
  - URL building;
  - the custom-field loops and the raw-lead merge;
  - the `update_lead` payload;
  - the salesbot body;
  - the query parameters;
  - the lead-id extraction.
- `Text.dfy` has Python's `strip`, `lower`, `split`, `join`, `replace` and `str(int)` on ASCII strings.
- `Json.dfy` has JSON values and Python truthiness. `Wrappers.dfy` has `Option` and `Result`.

Most exceptions the Python code would raise are modelled as error values. `ConversionError` covers the conversion builder. In Kommo, `MalformedResponse` covers a response of the wrong shape, and `MissingFieldId` covers a configuration that lacks a field id. Whether DynamoDB's `put_item` or the CRM update raised is an explicit boolean parameter.

Behaviours of the code that a reader might not expect, which the model keeps:

- A lead whose newest click has expired gets no CRM update and no response. `update_lead` falls off its end and returns `None`; the lead is not classified as organic.
- The 400 response for a click without gclid stores its status under the key `"statucCode"`, as the code spells it (`ClickLog.MissingGclidResponse`).
- The e-mail is lower-cased twice (at the call site and in the normaliser). `GoogleAds.EmailCallSiteLower` shows this makes no difference.
- Kommo returns `"custom_fields_values": null` for an entity without custom fields. Per the code, `.get("custom_fields_values", [])` then returns `None` and the loop raises. `Kommo.CustomFields` has this as an error.

## Model

| member | source | states |
|---|---|---|
| ClickLog.RouteOf | app/aws-lambda/lambda_function.py:31-40 | routes to the click handler iff the path is /outbound-click-logs and the method POST, to the lead handler iff /update-lead and POST, otherwise to 404 |
| ClickLog.NewClickRecord | app/aws-lambda/lambda_function.py:65-78 | the stored item has pk "click", matched false, created_at now, expires_at created_at + 60·TTL, and the body's gclid and page_path (None when absent) |
| ClickLog.Put | app/aws-lambda/lambda_function.py:70-79 | a put lands under its expires_at, replacing any record with that key, and leaves every other record unchanged |
| ClickLog.MarkMatched | app/aws-lambda/lambda_function.py:136-140 | the update sets matched on exactly the keyed record; keys and all other records are unchanged |
| ClickLog.MarkMatchedIdempotent | app/aws-lambda/lambda_function.py:136-140 | marking the same record twice equals marking it once |
| ClickLog.NewestKey | app/aws-lambda/lambda_function.py:56-60 | the newest-first order's first key: a member of the key set and no smaller than any other |
| ClickLog.LatestUnmatched | app/aws-lambda/lambda_function.py:56-61 | the query finds a record only if it is the newest one and unmatched; it is none iff the table is empty or the newest record is matched |
| ClickLog.QueryItems | app/aws-lambda/lambda_function.py:56-63 | the items list holds at most one record, never a matched one, and only one that is in the table |
| ClickLog.OlderUnmatchedHidden | app/aws-lambda/lambda_function.py:56-61 | an older unmatched click is not returned while the newest click is matched |
| ClickLog.MatchedNewestHidesAll | app/aws-lambda/lambda_function.py:130-140 | after the found record is marked, the next query finds nothing |
| ClickLog.PutNewestIsFound | app/aws-lambda/lambda_function.py:56-79 | a click expiring later than every stored one is exactly what the next query returns |
| ClickLog.LogClick | app/aws-lambda/lambda_function.py:42-100 | no truthy gclid gives the 400 result with the table unchanged; 200 iff gclid is truthy and the put succeeds, and then the new record is stored under its expires_at (replacing any record with that key) and every other record is unchanged; otherwise the table is unchanged |
| ClickLog.MatchLead | app/aws-lambda/lambda_function.py:103-165 | key set unchanged; at most the found, unexpired record changes, and only its flag; expired or matched records untouched; the CRM log grows by at most one update, cpc iff a record was marked, organic iff there was no candidate; a failed cpc update still leaves the record marked; no result iff the candidate expired. Case by case: no candidate gives the organic update (if accepted) with the table unchanged and 200 or 500; an unexpired candidate is marked and gives the cpc update with its gclid and page path (if accepted) and 200 or 500; an expired candidate changes nothing |
| ClickLog.SecondLeadIsOrganic | app/aws-lambda/lambda_function.py:103-165 | a second lead right after a successful match is organic and changes no record |
| ClickLog.ClickLogService.constructor | app/aws-lambda/lambda_function.py:20-21 | the service starts with an empty table and no CRM updates |
| ClickLog.ClickLogService.LambdaHandler | app/aws-lambda/lambda_function.py:28-40 | an invalid route answers 404 and changes nothing; the click route behaves as LogClick; the lead route behaves as MatchLead |
| ClickLog.ClickLogService.ClickLogHandler | app/aws-lambda/lambda_function.py:42-53 | the new table and the result are those of LogClick; the CRM log is unchanged |
| ClickLog.ClickLogService.PersistClickLog | app/aws-lambda/lambda_function.py:65-100 | a successful put stores the new record and answers 200; a failed one changes nothing and answers 500 |
| ClickLog.ClickLogService.QueryLatestUnmatched | app/aws-lambda/lambda_function.py:55-61 | the loop finds the newest key and returns that record iff it is unmatched: at most one item, never a matched one |
| ClickLog.ClickLogService.UpdateLeadHandler | app/aws-lambda/lambda_function.py:55-63 | the query followed by the matcher has exactly the effect of MatchLead |
| ClickLog.ClickLogService.UpdateLead | app/aws-lambda/lambda_function.py:103-165 | no items: organic update, table unchanged, 200 or 500; unexpired candidate (now <= expires_at): marked first, then a cpc update with its gclid and page path, 200 or 500; expired: nothing changes and there is no result |
| GoogleAds.ConversionTypeTable | app/services/google_ads_service.py:18-39 | the three conversion types have distinct names and distinct default values 5, 40 and 500 |
| GoogleAds.NormalizeAndHash | app/services/google_ads_service.py:187-199 | the hashed string is lower-case with no leading or trailing whitespace |
| GoogleAds.NormalizeAndHashStable | app/services/google_ads_service.py:199 | normalising the hashed string again gives the same digest |
| GoogleAds.HashOfNormalized | app/services/google_ads_service.py:199 | a string that is already stripped and lower-cased is hashed as is |
| GoogleAds.NormalizeAndHashEmail | app/services/google_ads_service.py:176-185 | the string hashed for an e-mail is stripped and lower-cased |
| GoogleAds.GmailRebuilt | app/services/google_ads_service.py:176-183 | on a Gmail domain the normalised address differs from first@rest only in its first segment, which loses every dot; rest is kept verbatim and splits into the remaining segments |
| GoogleAds.GmailBranch | app/services/google_ads_service.py:176-183 | when the second '@'-segment is a Gmail domain, the hashed string is local@rest: local is the first segment with its dots removed and leading whitespace trimmed, rest is the remaining segments unchanged |
| GoogleAds.EmailNormalizationIdempotent | app/services/google_ads_service.py:176-185 | normalising the hashed e-mail string again yields the same digest |
| GoogleAds.EmailWithoutAt | app/services/google_ads_service.py:176-185 | an address without '@' is only stripped and lower-cased |
| GoogleAds.NonGmailKeepsDots | app/services/google_ads_service.py:180-185 | when the second segment is not a Gmail domain, only strip and lower apply |
| GoogleAds.PlainAddress | app/services/google_ads_service.py:176-185 | local@domain hashes lower(local)@lower(domain), with the local part's dots removed exactly when the domain is gmail.com or googlemail.com |
| GoogleAds.GmailIgnoresDots | app/services/google_ads_service.py:176-185 | at gmail.com or googlemail.com, x.y@domain and xy@domain hash the same string, lower(x)lower(y)@domain (so John.Doe@gmail.com and johndoe@gmail.com are one address) |
| GoogleAds.OtherDomainKeepsDots | app/services/google_ads_service.py:176-185 | at any other domain x.y@domain hashes lower(x).lower(y)@lower(domain), dot kept, and differs from what xy@domain hashes |
| GoogleAds.EmailCallSiteLower | app/services/google_ads_service.py:148-152 | lower-casing the e-mail before the normaliser does not change the digest |
| GoogleAds.DateField | app/services/google_ads_service.py:217 | %Y-%m-%d: ten characters with the zero-padded year, month and day in place |
| GoogleAds.ClockField | app/services/google_ads_service.py:217 | %H:%M:%S: hours, minutes and seconds of the second of the day, zero-padded |
| GoogleAds.StrfTime | app/services/google_ads_service.py:217 | the strftime pattern is 24 characters: date, space, clock, and the offset +0300 |
| GoogleAds.InsertOffsetColon | app/services/google_ads_service.py:219 | a colon is spliced in two characters before the end; everything else is kept |
| GoogleAds.ColonInserted | app/services/google_ads_service.py:217-219 | the spliced string is date, space, clock and +03:00 |
| GoogleAds.FormatTime | app/services/google_ads_service.py:201-219 | a rendering exists iff -62135596800 <= t <= 253402289999 (0001-01-01 00:00:00 UTC up to the last second still in year 9999 at UTC+3); it is 25 characters and ends in +03:00 |
| Calendar.DatetimeYearRange | app/services/google_ads_service.py:211-215 | the dates datetime can hold (years 1 to 9999) are exactly the day numbers -719162 to 2932896 |
| GoogleAds.FormatTimeRoundTrip | app/services/google_ads_service.py:211-219 | reading the rendering back as a UTC+3 time gives the original instant |
| GoogleAds.FormatTimeInjective | app/services/google_ads_service.py:211-219 | distinct instants render differently |
| GoogleAds.ConversionInstant | app/services/google_ads_service.py:119-120 | now when the key is absent; the lead's int as is, a bool as 0 or 1; any other value present (None, text, list, object) is rejected |
| GoogleAds.ConversionValue | app/services/google_ads_service.py:121 | the type's default only when the key is absent; the lead's int as is, a bool as 0 or 1, text as float reads a whole number; None, lists and objects are rejected |
| GoogleAds.ParseWholeNumberRoundTrip | app/services/google_ads_service.py:121 | float() of str(n), with or without a leading plus, reads back n |
| GoogleAds.CreateConversion | app/services/google_ads_service.py:108-138 | fails iff the time or the value is rejected; time rendered at UTC+3; the value is the lead's own as ConversionValue reads it; value and USD currency default only for absent keys; order_id iff truthy; gclid iff truthy, gbraid only without a truthy gclid, never both; both consents granted; no identifiers |
| GoogleAds.UserIdentifiers | app/services/google_ads_service.py:140-162 | at most two entries, e-mail before phone, each only when its field is truthy; e-mail hashed with the e-mail normaliser, phone with plain strip/lower; a truthy non-string stops the list |
| GoogleAds.ClickConversion.constructor | app/services/google_ads_service.py:118 | a new message has every field at its default |
| GoogleAds.ClickConversion.SetFields | app/services/google_ads_service.py:119-136 | after the assignments the message holds the record CreateConversion describes, with its identifier list untouched |
| GoogleAds.CreateClickConversion | app/services/google_ads_service.py:108-138 | a fresh message whose fields are exactly CreateConversion's record, or CreateConversion's error |
| GoogleAds.AddUserIdentifiers | app/services/google_ads_service.py:140-162 | appends exactly UserIdentifiers' entries to the list, reports its error, and changes no other field |
| GoogleAds.PrepareClickConversion | app/services/google_ads_service.py:86-87 | succeeds iff both steps succeed; the message is the created record with the identifiers appended |
| Text.StripLower | app/services/google_ads_service.py:199 | strip then lower gives a lower-case string with no whitespace at either end |
| Text.StripLowerIdempotent | app/services/google_ads_service.py:199 | strip-and-lower applied twice equals applying it once |
| Text.StripLowerOfLower | app/services/google_ads_service.py:151-176 | lower-casing before strip-and-lower changes nothing |
| Text.JoinSplit | app/services/google_ads_service.py:177-183 | joining the '@'-split parts gives back the string |
| Text.SplitJoin | app/services/google_ads_service.py:177-183 | splitting a join of '@'-free parts gives back the parts |
| Text.DeleteCharIsReplace | app/services/google_ads_service.py:182 | replacing "." by "" deletes exactly the dots, character by character |
| Text.ReplaceSelf | app/services/kommo_service.py:25 | replacing "v4" by "v4" is the identity |
| Text.IntToStringInjective | app/services/kommo_service.py:65 | distinct lead ids render to distinct strings |
| Calendar.CivilFromDays | app/services/google_ads_service.py:212-216 | the date for a day count is valid and counts back to that day |
| Kommo.BuildUrl | app/services/kommo_service.py:22-27 | the URL ends with the endpoint, after the formatted base with every "v4" replaced by the API version |
| Kommo.BuildUrlDefaultVersion | app/services/kommo_service.py:22-27 | with the default "v4" the URL is the formatted base followed by the endpoint |
| Kommo.CreateOrderId | app/services/kommo_service.py:64-65 | a one-key dict whose order_id is "order_" followed by the lead id |
| Kommo.CreateOrderIdInjective | app/services/kommo_service.py:64-65 | distinct leads get distinct order ids |
| Kommo.FieldKey | app/services/kommo_service.py:85-87 | a contact field is keyed by its lower-cased string name; every key is hashable |
| Kommo.CustomFields | app/services/kommo_service.py:82 | an absent custom_fields_values gives no fields; a list gives its items; null raises |
| Kommo.StepField | app/services/kommo_service.py:82-88 | one pass of the loop succeeds iff the field is well formed (a dict with a hashable field_id and, when selected, a key and a first value); an unselected field leaves the dict alone; a selected one sets exactly its key to its first value |
| Kommo.CollectFields | app/services/kommo_service.py:82-88 | the loop runs to the end iff every field is well formed; otherwise it raises |
| Kommo.CollectFailureSticks | app/services/kommo_service.py:82-88 | once the loop raises on a field, the whole loop raises the same error |
| Kommo.CollectOnlySelected | app/services/kommo_service.py:82-88 | every key of the collected dict comes from a field whose field_id is selected |
| Kommo.CollectLastWins | app/services/kommo_service.py:82-88 | the value under a key is that of the last selected field with that key |
| Kommo.ContactKeysLowered | app/services/kommo_service.py:85-87 | every key of the contact data is a lower-case string |
| Kommo.CollectCustomFields | app/services/kommo_service.py:82-88 | the loop returns the dict the fold over the fields describes, or the error it stops at |
| Kommo.ContactData | app/services/kommo_service.py:77-88 | a contact without custom_fields_values gives an empty dict |
| Kommo.GetContactData | app/services/kommo_service.py:67-88 | the method returns ContactData for the contact response |
| Kommo.ContactIdOf | app/services/kommo_service.py:195 | the contact id, or a shape error; any other error kind is impossible |
| Kommo.ContactIdRoundTrip | app/services/kommo_service.py:195 | a lead whose embedded contact list starts with a contact carrying an id yields that id, whatever else the list or the contact holds |
| Kommo.MergeRawLead | app/services/kommo_service.py:160 | the keys are the union; order_id wins over contact data, which wins over lead data |
| Kommo.RawLead | app/services/kommo_service.py:140-160 | built iff the lead names a contact, the contact's fields are read, and every lead field is well formed; its keys are the lead's selected names, the contact's keys and order_id |
| Kommo.ConstructRawLead | app/services/kommo_service.py:140-160 | contact id, contact data, lead fields and merge, in the source's order, returning RawLead |
| Kommo.RawLeadPrecedence | app/services/kommo_service.py:149-160 | a raw lead carries its order id, and every contact value not named order_id |
| Kommo.FirstMissingKey | app/services/kommo_service.py:209-226 | none iff all four payload names are configured, otherwise the first missing one in payload order |
| Kommo.UpdateLeadPayload | app/services/kommo_service.py:206-226 | succeeds iff the four field ids exist, else fails on the first missing; on success exactly four entries, source, gclid, gbraid, page_path in that order, each with its field id and value |
| Kommo.UpdateLeadPayloadReadBack | app/services/kommo_service.py:209-226 | with distinct field ids, each argument is read back from the payload under its field's id |
| Kommo.UpdateLeadRequest | app/services/kommo_service.py:206-232 | a PATCH of that payload to /leads/<lead id> |
| Kommo.CrmUpdateRequest | app/services/kommo_service.py:206-232 | the matcher's update is a PATCH to /leads/<lead id>; it fails iff a payload field id is missing, naming the first one |
| Kommo.CrmUpdateReadBack | app/services/kommo_service.py:206-226 | with distinct field ids the PATCH carries the update's source, gclid and page path, and None for gbraid |
| Kommo.OrganicUpdateDefaults | app/services/kommo_service.py:206-208 | the organic update sends gclid and gbraid None and page path "/" |
| Kommo.ShippedFieldIdsLackGbraid | app/services/kommo_service.py:218-221 | with only source, gclid and page_path configured, the payload fails on gbraid |
| Kommo.CompleteFieldIdsBuildPayload | app/services/kommo_service.py:209-226 | with every field id configured, the payload is always built |
| Kommo.SalesbotBody | app/services/kommo_service.py:129-136 | one element per lead id, in order, each with the bot id and entity type 2 |
| Kommo.SalesbotBodyRoundTrip | app/services/kommo_service.py:129-136 | the lead ids read back from the body are exactly the given ones |
| Kommo.SalesbotRequest | app/services/kommo_service.py:127-138 | posted to the salesbot endpoint of API v2, naming exactly the given leads |
| Kommo.IncomingLeadsParams | app/services/kommo_service.py:170-175 | limit then page come first, with at most two more parameters |
| Kommo.IncomingLeadsParamsLookup | app/services/kommo_service.py:170-175 | limit and page are always sent; order[created_at]=desc iff sorted; the pipeline filter iff filtering |
| Kommo.IncomingLeadsDefaults | app/services/kommo_service.py:167-177 | the defaults ask for ten leads, page 1, newest first, in the target pipeline |
| Kommo.LeadsByPipelineParams | app/services/kommo_service.py:104-109 | four parameters carrying the pipeline, stage and time window |
| Kommo.IdsOf | app/services/kommo_service.py:113-118 | succeeds iff every lead has an id; then the ids have the same number and order as the leads |
| Kommo.EmbeddedLeads | app/services/kommo_service.py:113-118 | raises unless the response has _embedded and leads; a list of leads is iterated as is |
| Kommo.LeadIdsByPipeline | app/services/kommo_service.py:90-118 | one id per listed lead, in the same order; raises iff the leads cannot be read or one lacks an id |
| Kommo.LeadIdsRoundTrip | app/services/kommo_service.py:113-118 | a response listing leads with given ids yields exactly those ids |

## Left out

- HTTP and SDK calls are left out. This covers `requests`, `_request`'s `RuntimeError` wrapping, the Google Ads client, `upload_click_conversions` and the conversion-action path. Their responses and outcomes are parameters.
- The lazy, locked client singleton (`_get_client`) is concurrency, not logic.
- SHA-256 and UTF-8 encoding are symbolic. A digest is represented by the string it hashes.
- Strings are ASCII. `strip` and `lower` on non-ASCII characters are not modelled.
- Times are whole seconds (`nat` in the click log, `int` for conversions). Sub-second timestamps and float comparisons are not modelled.
- GoogleAds.ConversionValue: text is read only when it spells a whole number (optional surrounding whitespace and sign, then decimal digits). Python's `float()` also accepts decimals, exponents, underscores between digits, `inf` and `nan`; the model rejects such text. JSON floats are not modelled.
- GoogleAds.ConversionInstant: JSON floats are not modelled, so `fromtimestamp` on a fractional instant is not either.
- GoogleAds.FormatTime: yields nothing where Python would raise because of the year range. It does not distinguish `OverflowError` from `ValueError`.
- Python equates `True` with `1`, and int with float, in set membership. The model does not, so it does not capture the `field_id in ids` test across those types.
- `str.format` is modelled as a plain substitution of `{subdomain}` (`Kommo.FormatSubdomain`). Other braces in the base URL are not modelled.
- The contact id is not used to pick the contact response, and the contact response is a parameter. Both `GET /leads/<id>` calls in `construct_raw_lead` read the same response.
- Every Kommo shape error becomes the one `MalformedResponse`. Which Python exception it was is not modelled.
- `get_latest_incoming_lead_id`, `get_lead_by_id`, `get_incoming_lead_by_id` and `get_contact_info`'s request are reads whose results are parameters. The lead id given to `update_lead` is one of them.
- The click body is given already parsed, as a JSON object. A missing or empty body (`json.loads({})` raises `TypeError`), text that is not JSON, and a JSON body that is not an object are not modelled; nor is an event without `requestContext`.
- The boolean outcomes `putOk` and `crmOk` stand for `RuntimeError` only. Other exceptions (boto's `ClientError`, a `KeyError` from the CRM payload) escape the Lambda with no response; that outcome is not modelled.
- The click-log query and the `update_item` that marks a click are assumed to succeed. An exception from either would escape the Lambda; that is not modelled.
- DynamoDB's TTL eviction is configured outside this code. Two Lambda invocations matching the same click concurrently is not modelled.
- `app/config.py` is environment loading and is not part of this model. Field ids and the TTL are parameters.
- The country and language detectors, and logging throughout, are left out.

## Findings

| source | as written | input that shows it | evidently intended | confidence | as-written member | corrected member |
|---|---|---|---|---|---|---|
| app/services/kommo_service.py:218-221 | the payload reads `field_ids["gbraid"]`, but the configured field ids (app/config.py:50-54) name only source, gclid and page_path | any `update_lead` call with field ids {source, gclid, page_path} raises `KeyError`; that is not a `RuntimeError`, so the Lambda fails, and in the cpc branch the click has already been marked | the configuration supplies every field id the service reads, and the payload is then always built | not executed; high | Kommo.ShippedFieldIdsLackGbraid | Kommo.CompleteFieldIdsBuildPayload |
