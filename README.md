# Procurement API helpers, modelled in Dafny

This project models the pure helpers of the marketplace procurement client
`ProcurementApi` (`api/procurement_api.py`). The client is a thin adapter over
a remote procurement service that manages accounts and entitlements. Around
its remote calls it keeps a small amount of local logic, and that logic is
what the model covers:

- **Resource names.** The client builds account and entitlement names of the
  form `providers/{prefix}{project_id}/accounts/{id}` and
  `providers/{prefix}{project_id}/entitlements/{id}`, and parses ids back out
  of them. The prefix is `"DEMO-"` in the codelab/demo environment and empty
  otherwise. Prefix and project id are fixed per client, so they are
  modelled as an immutable `Provider` value (`resource_names.dfy`). Python's
  `str.split` and `str.join` are modelled in `strings.dfy`.
- **The entitlement-list filter.** `list_entitlements` builds its `filter`
  parameter from up to three optional clauses. The clauses come in the order
  `state=…`, `account=…`, `offer="…/privateOffers/…"`. Absent or empty
  arguments are dropped, and the rest are joined with commas
  (`entitlement_filter.dfy`).
- **The approval inspector.** `is_account_approved` searches linearly for the
  first approval named `signup` and classifies its state
  (`account_approval.dfy`). It is modelled as a method with a loop that stops
  at the first match, proved equal to a recursive specification.
- **The store-mirroring step.** `add_entitlement_to_dlp_store` copies one
  entitlement into the entitlements map of the single customer record that
  an external store returned (`dlp_mirror.dfy`). The store lookup, the
  entitlement fetch and the status code of the write-back are inputs. The
  customer record is a class whose map field the method updates in place.

Two places where the code does less than its annotations suggest:
- `is_account_approved` is annotated `-> bool` (api/procurement_api.py:201),
  but it returns `None` when the first signup approval is in a state other
  than `PENDING` or `APPROVED`: neither branch at lines 212-217 matches, and
  the function ends. The model returns a distinct `Unknown` verdict there.
  Python callers would treat it as falsy (`Truthy` is false).
- The comment at api/procurement_api.py:32 gives the account name format,
  but `get_account_id` never checks the prefix. It only drops as many
  characters as the accounts path has. The model proves that rebuilding a
  name from its parsed id gives the name back exactly when the name starts
  with the client's accounts path.

## Model

| member | source | states |
|---|---|---|
| `ResourceNames.ProjectPrefix` | api/procurement_api.py:14 | The name prefix is empty exactly outside the codelab/demo environment. |
| `ResourceNames.AccountName` | api/procurement_api.py:35-36 | An account name starts with the provider's accounts path and is that path followed by the id. |
| `ResourceNames.AccountId` | api/procurement_api.py:31-33 | The parsed id is a suffix of the name, as long as the name minus the accounts path, and empty for a name no longer than that path. |
| `ResourceNames.AccountIdOfAccountName` | api/procurement_api.py:31-36 | Parsing the name built from any account id gives back that id. |
| `ResourceNames.AccountNameOfAccountId` | api/procurement_api.py:31-36 | Rebuilding a name from its parsed id reproduces the name if and only if the name starts with the accounts path. |
| `ResourceNames.AccountIdIgnoresLeadingText` | api/procurement_api.py:31-33 | The parser never checks the prefix: any leading text as long as the accounts path is dropped. |
| `ResourceNames.EntitlementName` | api/procurement_api.py:79-82 | An entitlement name starts with `providers/{prefix}{project_id}/entitlements/`, ends with the id, and is exactly as long as the two together. |
| `ResourceNames.EntitlementId` | api/procurement_api.py:84-86 | The id parsed from a name has no slash and is a suffix of the name. It is the whole name when the name has no slash; otherwise a slash comes right before it, so it is the text after the last slash. |
| `ResourceNames.EntitlementIdOfEntitlementName` | api/procurement_api.py:79-86 | An entitlement id is recovered from its name if and only if it contains no slash. |
| `Strings.Split` | api/procurement_api.py:86 | `str.split` gives at least one piece, and no piece holds the separator. A string without the separator splits into itself; one with it splits into two or more pieces. |
| `Strings.JoinSplit` | api/procurement_api.py:86 | Joining the pieces of a split with the separator (`Strings.Join`, Python's `sep.join`, also used at line 184) gives back the original string. |
| `Strings.LastPartIsSuffix` | api/procurement_api.py:86 | The last piece of a split (`[-1]`) is a suffix of the split string. |
| `Strings.SepBeforeLastPart` | api/procurement_api.py:86 | When the string holds the separator, the last piece is shorter than the string and a separator comes right before it. |
| `Strings.LastPartAfterLastSep` | api/procurement_api.py:86 | Whatever precedes the last separator, the last piece is exactly the separator-free text after it. |
| `Strings.SplitAfterFirstSep` | api/procurement_api.py:86 | Splitting `a + sep + b`, with `a` separator-free, gives `a` followed by the pieces of `b`. |
| `Strings.SplitJoin` | api/procurement_api.py:184 | Separator-free pieces joined with the separator split back into exactly those pieces. |
| `Strings.JoinHasNoStraySep` | api/procurement_api.py:184 | Joining non-empty separator-free pieces leaves no leading, trailing or doubled separator. |
| `EntitlementFilter.NonEmpty` | api/procurement_api.py:184 | The comprehension `[f for f in … if f]` keeps exactly the non-empty clauses: each kept clause is non-empty, and every non-empty clause is kept. It is never longer than its input. |
| `EntitlementFilter.KeptClausesArePresent` | api/procurement_api.py:181-184 | Dropping empty clauses leaves exactly the state, account and offer clauses that were given, in that order. |
| `EntitlementFilter.ListFilter` | api/procurement_api.py:181-184 | The filter is empty if and only if none of state, account and offer is given (present and non-empty). |
| `EntitlementFilter.FilterListsPresentClauses` | api/procurement_api.py:181-184 | The filter is the given clauses, state then account then offer, joined by commas. |
| `EntitlementFilter.FilterWithAllThree` | api/procurement_api.py:181-184 | With all three arguments, the filter is the state clause, a comma, the account clause, a comma, and the offer clause on the fixed private-offer path. |
| `EntitlementFilter.OfferPathHasNoComma` | api/procurement_api.py:182 | The fixed private-offer path contributes no comma to the filter. |
| `EntitlementFilter.FilterClausesAreSeparable` | api/procurement_api.py:181-184 | With comma-free arguments, the filter has no leading, trailing or doubled comma. A non-empty filter splits on commas into exactly the given clauses, in order. |
| `AccountApproval.FirstSignup` | api/procurement_api.py:204-208 | The search finds the earliest approval named `signup`, with none before it, or reports that none exists. |
| `AccountApproval.IsAccountApproved` | api/procurement_api.py:201-221 | The loop that breaks at the first `signup` approval returns the verdict of the specification `ApprovalVerdict`. That verdict classifies the first `signup` approval (`Classify`): `PENDING` gives not approved, `APPROVED` gives approved, any other state gives unknown, and no approval gives not approved. |
| `AccountApproval.ApprovedIff` | api/procurement_api.py:204-217 | The verdict is `Approved` if and only if the first approval named `signup` has state `APPROVED`. |
| `AccountApproval.NoSignupIsNotApproved` | api/procurement_api.py:218-221 | An account without a `signup` approval, treated as deleted, is not approved. |
| `AccountApproval.PendingIsNotApproved` | api/procurement_api.py:211-214 | A first `signup` approval in state `PENDING` gives `NotApproved`. |
| `AccountApproval.OtherStateIsUnknown` | api/procurement_api.py:211-217 | A first `signup` approval in any other state gives the falsy `Unknown` (Python `None`). |
| `AccountApproval.LaterApprovalsIgnored` | api/procurement_api.py:205-208 | Approvals after the first `signup` one, later `signup` ones included, never change the verdict. |
| `AccountApproval.FirstSignupAt` | api/procurement_api.py:205-208 | After a `signup`-free prefix, the first `signup` approval is found at the prefix's length. |
| `DlpMirror.AddEntitlementToDlpStore` | api/procurement_api.py:113-140 | The step fails without writing unless exactly one customer matched and the entitlement was fetched. Otherwise only the key `entitlement_id` gains or changes its value, the whole map is written back, and the step fails if and only if the write status is outside [200, 300). |

## Left out

- The remote-call wrappers (`get_account`, `approve_account`, `reset_account`, `get_entitlement`, `approve_entitlement`, `reject_entitlement`, `approve_entitlement_plan_change`, `list_accounts`, and the request half of `list_entitlements`): each only forwards to a remote client library that is not part of this model.
- The rate-limit and exponential-backoff decorators: third-party code driven by wall-clock windows and sleeps.
- The HTTP calls, JSON encoding and API-key headers of `add_entitlement_to_dlp_store`: the lookup answer (`count`, `results`), the fetched entitlement and the write status are parameters instead. Its caller at api/procurement_api.py:111 is commented out.
- Module configuration and logging: the settings lookup behind the `DEMO-` prefix becomes the `isCodelab` argument of `ResourceNames.ProjectPrefix`, and logging calls have no counterpart.
- `api/services_api.py`: `check_service` returns true exactly when the remote check reports no errors, and false on any exception (api/services_api.py:37-41). `report_usage` returns true when the remote call succeeds and false on any exception. Both decisions depend entirely on a remote client library that is not part of this model.
- `api/notification.py`: a single chat-webhook POST, which is pure I/O.
- Missing dictionary keys (`approvals`, `name`, `state`, `count`, `results`, `gcp_marketplace_entitlements`, the customer's `id`): Python would raise `KeyError`. The model's records always carry these fields.
- `DlpMirror.AddEntitlementToDlpStore`: a stored `gcp_marketplace_entitlements` that is `null` or not a JSON object would make the assignment at api/procurement_api.py:128 raise `TypeError`. The model types the field as a map, which rules this case out. The write at line 133 sends the map as a JSON-encoded string; the model sends the map itself, without the encoding step.
- `DlpMirror.AddEntitlementToDlpStore`: a lookup that reports a count of 1 but returns an empty result list would make Python raise `IndexError`. The model reports it as its own error, `MissingResult`.
- `EntitlementFilter.ListFilter`: Python truthiness is modelled only for optional strings (`None` and `""` are dropped). Non-string arguments such as `0` are not modelled.
- `DlpMirror.Json`: JSON numbers are modelled as integers; floating point is not modelled.
