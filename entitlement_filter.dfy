/**
 * The filter string `list_entitlements` sends with its list request: up to
 * three clauses (state, account, offer) in that order, each dropped when its
 * argument is `None` or empty, joined with commas.
 */
module EntitlementFilter {
  import opened Wrappers
  import opened Strings

  /** The project number and service that own the private offers. */
  const OfferProjectNumber := "965780882353"
  const OfferService := "service.endpoints." + "private-adeptmind-1763358" + ".cloud.goog"

  /** The fixed private-offer path an offer id is appended to. */
  const OfferPath := "projects/" + OfferProjectNumber + "/services/" + OfferService + "/privateOffers/"

  /** The offer path itself contributes no comma to the filter. */
  lemma OfferPathHasNoComma()
    ensures ',' !in OfferPath
  {
    assert ',' !in "service.endpoints.";
    assert ',' !in "private-adeptmind-1763358";
  }

  /** Python truthiness of an optional string argument: present and non-empty. */
  predicate Given(arg: Option<string>)
  {
    arg.Some? && arg.value != ""
  }

  function StateClause(state: Option<string>): string
  {
    if Given(state) then "state=" + state.value else ""
  }

  function AccountClause(accountId: Option<string>): string
  {
    if Given(accountId) then "account=" + accountId.value else ""
  }

  function OfferClause(offer: Option<string>): string
  {
    if Given(offer) then "offer=\"" + OfferPath + offer.value + "\"" else ""
  }

  /** The list comprehension `[f for f in clauses if f]`: the non-empty clauses, in order. */
  function NonEmpty(clauses: seq<string>): (kept: seq<string>)
    ensures forall i :: 0 <= i < |kept| ==> kept[i] != ""
    ensures forall c :: c in kept <==> c in clauses && c != ""
    ensures |kept| <= |clauses|
  {
    if clauses == [] then []
    else if clauses[0] == "" then NonEmpty(clauses[1..])
    else [clauses[0]] + NonEmpty(clauses[1..])
  }

  /** The filter parameter of `list_entitlements`. */
  function ListFilter(state: Option<string>, accountId: Option<string>, offer: Option<string>): (filter: string)
    ensures filter == "" <==> !Given(state) && !Given(accountId) && !Given(offer)
  {
    var kept := NonEmpty([StateClause(state), AccountClause(accountId), OfferClause(offer)]);
    KeptClausesArePresent(state, accountId, offer);
    assert |kept| >= 1 ==> kept[0] != "" && kept[0] <= Join(kept, ',');
    Join(kept, ',')
  }

  /**
   * The clauses the caller asked for, written out one argument at a time:
   * state first, then account, then offer, each only when given.
   */
  function PresentClauses(state: Option<string>, accountId: Option<string>, offer: Option<string>): seq<string>
  {
    (if Given(state) then ["state=" + state.value] else [])
    + (if Given(accountId) then ["account=" + accountId.value] else [])
    + (if Given(offer) then ["offer=\"" + OfferPath + offer.value + "\""] else [])
  }

  /** Dropping the empty clauses leaves exactly the requested ones. */
  lemma {:induction false} KeptClausesArePresent(state: Option<string>, accountId: Option<string>, offer: Option<string>)
    ensures NonEmpty([StateClause(state), AccountClause(accountId), OfferClause(offer)])
         == PresentClauses(state, accountId, offer)
  {
    var s, a, o := StateClause(state), AccountClause(accountId), OfferClause(offer);
    assert [s, a, o][1..] == [a, o] && [a, o][1..] == [o] && [o][1..] == [];
    assert NonEmpty([o]) == if o == "" then [] else [o];
    assert NonEmpty([a, o]) == (if a == "" then [] else [a]) + NonEmpty([o]);
  }

  /** The filter is exactly the requested clauses, in the fixed order, joined by commas. */
  lemma FilterListsPresentClauses(state: Option<string>, accountId: Option<string>, offer: Option<string>)
    ensures ListFilter(state, accountId, offer) == Join(PresentClauses(state, accountId, offer), ',')
  {
    KeptClausesArePresent(state, accountId, offer);
  }

  /** Asking for all three clauses gives all three, comma-separated, state first and offer last. */
  lemma FilterWithAllThree(state: string, accountId: string, offer: string)
    requires state != "" && accountId != "" && offer != ""
    ensures ListFilter(Some(state), Some(accountId), Some(offer))
         == StateClause(Some(state)) + "," + AccountClause(Some(accountId)) + "," + OfferClause(Some(offer))
  {
    var c0, c1, c2 := StateClause(Some(state)), AccountClause(Some(accountId)), OfferClause(Some(offer));
    FilterListsPresentClauses(Some(state), Some(accountId), Some(offer));
    assert PresentClauses(Some(state), Some(accountId), Some(offer)) == [c0, c1, c2];
    assert [c0, c1, c2][1..] == [c1, c2] && [c1, c2][1..] == [c2];
    assert Join([c1, c2], ',') == c1 + [','] + c2;
  }

  /** No comma inside a given argument. */
  predicate CommaFree(arg: Option<string>)
  {
    arg.None? || ',' !in arg.value
  }

  /**
   * With comma-free arguments the filter has no leading, trailing or doubled
   * comma, and splitting it on commas gives back exactly the requested clauses.
   */
  lemma {:induction false} FilterClausesAreSeparable(state: Option<string>, accountId: Option<string>, offer: Option<string>)
    requires CommaFree(state) && CommaFree(accountId) && CommaFree(offer)
    ensures NoStraySep(ListFilter(state, accountId, offer), ',')
    ensures ListFilter(state, accountId, offer) != ""
        ==> Split(ListFilter(state, accountId, offer), ',') == PresentClauses(state, accountId, offer)
  {
    var clauses := PresentClauses(state, accountId, offer);
    OfferPathHasNoComma();
    FilterListsPresentClauses(state, accountId, offer);
    JoinHasNoStraySep(clauses, ',');
    if |clauses| >= 1 {
      SplitJoin(clauses, ',');
    }
  }

}
