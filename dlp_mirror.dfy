/**
 * The decision and merge step of `add_entitlement_to_dlp_store`: copy one
 * entitlement into the entitlements map of the single customer record the
 * external store returned, then write that map back. The store lookup, the
 * entitlement fetch and the write's status code arrive as inputs.
 */
module DlpMirror {
  import opened Wrappers

  /** A JSON value: the entitlement payload is stored verbatim, never inspected. */
  datatype Json =
    | Null
    | Boolean(b: bool)
    | Number(n: int)
    | Text(s: string)
    | List(items: seq<Json>)
    | Object(fields: map<string, Json>)

  /** A customer record of the external store, with its mirrored entitlements. */
  class Customer {
    const id: string
    var entitlements: map<string, Json>

    constructor (id: string, entitlements: map<string, Json>)
      ensures this.id == id && this.entitlements == entitlements
    {
      this.id := id;
      this.entitlements := entitlements;
    }
  }

  /** The write the step sends back to the store: the customer's whole entitlements map. */
  datatype Patch = Patch(customerId: string, entitlements: map<string, Json>)

  /** Why the step fails; each is raised at once, without retry. */
  datatype MirrorError =
    | CustomerCount(count: int)       // the lookup did not match exactly one customer
    | MissingResult                   // a count of 1 with an empty result list (an index error)
    | EntitlementUnavailable          // the entitlement could not be fetched
    | WriteRejected(status: int)      // the write answered outside [200, 300)

  /** A write status the step accepts: 2xx. */
  predicate IsSuccess(status: int)
  {
    200 <= status < 300
  }

  /**
   * Mirror the fetched entitlement into the customer the lookup found.
   * `count` and `results` are the store's lookup answer, `fetched` the
   * entitlement the procurement service returned (`None` when it could not),
   * `status` the status code of the write. `sent` is the write issued, if any.
   */
  method AddEntitlementToDlpStore(entitlementId: string, count: int, results: seq<Customer>,
                                  fetched: Option<Json>, status: int)
    returns (sent: Option<Patch>, failure: Option<MirrorError>)
    modifies if |results| > 0 then {results[0]} else {}
    ensures count != 1 ==> failure == Some(CustomerCount(count)) && sent == None
    ensures count == 1 && |results| == 0 ==> failure == Some(MissingResult) && sent == None
    ensures count == 1 && |results| > 0 && fetched.None? ==> failure == Some(EntitlementUnavailable) && sent == None
    ensures sent.None? ==> |results| == 0 || results[0].entitlements == old(results[0].entitlements)
    ensures count == 1 && |results| > 0 && fetched.Some? ==>
      && results[0].entitlements == old(results[0].entitlements)[entitlementId := fetched.value]
      && results[0].entitlements.Keys == old(results[0].entitlements).Keys + {entitlementId}
      && (forall key :: key in old(results[0].entitlements) && key != entitlementId
            ==> results[0].entitlements[key] == old(results[0].entitlements)[key])
      && sent == Some(Patch(results[0].id, results[0].entitlements))
      && (failure.None? <==> IsSuccess(status))
      && (failure.Some? ==> failure == Some(WriteRejected(status)))
  {
    if count != 1 {
      return None, Some(CustomerCount(count));
    }
    if |results| == 0 {
      return None, Some(MissingResult);
    }
    var customer := results[0];
    var entitlements := customer.entitlements;
    if fetched.None? {
      return None, Some(EntitlementUnavailable);
    }
    entitlements := entitlements[entitlementId := fetched.value];
    customer.entitlements := entitlements;
    sent := Some(Patch(customer.id, entitlements));
    if !IsSuccess(status) {
      return sent, Some(WriteRejected(status));
    }
    return sent, None;
  }

}
