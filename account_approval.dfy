/**
 * `is_account_approved`: find the first approval named "signup" on an
 * account and classify its state.
 */
module AccountApproval {
  import opened Wrappers

  /** One entry of an account's `approvals` list. */
  datatype Approval = Approval(name: string, state: string)

  /** The part of an account payload the inspector reads. */
  datatype Account = Account(approvals: seq<Approval>)

  /**
   * The three results of the inspector. `Unknown` stands for the `None` the
   * Python function falls through to when the signup approval is in a state
   * other than "PENDING" or "APPROVED"; callers treat it as falsy.
   */
  datatype Verdict = Approved | NotApproved | Unknown

  /** Python truthiness of the returned value. */
  predicate Truthy(v: Verdict)
  {
    v == Approved
  }

  /** The position of the first approval named "signup", if any. */
  function FirstSignup(approvals: seq<Approval>): (k: Option<nat>)
    ensures k.Some? ==> k.value < |approvals| && approvals[k.value].name == "signup"
    ensures k.Some? ==> forall j :: 0 <= j < k.value ==> approvals[j].name != "signup"
    ensures k.None? <==> forall j :: 0 <= j < |approvals| ==> approvals[j].name != "signup"
  {
    if approvals == [] then None
    else if approvals[0].name == "signup" then Some(0)
    else match FirstSignup(approvals[1..])
      case None => None
      case Some(k) => Some(k + 1)
  }

  /** How the inspector classifies the signup approval it found, if any. */
  function Classify(signup: Option<Approval>): Verdict
  {
    match signup
    case None => NotApproved
    case Some(a) =>
      if a.state == "PENDING" then NotApproved
      else if a.state == "APPROVED" then Approved
      else Unknown
  }

  /** The verdict on a list of approvals: the classification of its first signup approval. */
  function ApprovalVerdict(approvals: seq<Approval>): Verdict
  {
    match FirstSignup(approvals)
    case None => Classify(None)
    case Some(k) => Classify(Some(approvals[k]))
  }

  /** The inspector: a linear search that stops at the first signup approval. */
  method IsAccountApproved(account: Account) returns (v: Verdict)
    ensures v == ApprovalVerdict(account.approvals)
  {
    var approval: Option<Approval> := None;
    var i := 0;
    while i < |account.approvals|
      invariant 0 <= i <= |account.approvals|
      invariant forall j :: 0 <= j < i ==> account.approvals[j].name != "signup"
    {
      if account.approvals[i].name == "signup" {
        approval := Some(account.approvals[i]);
        break;
      }
      i := i + 1;
    }
    if approval.Some? {
      if approval.value.state == "PENDING" {
        return NotApproved;
      } else if approval.value.state == "APPROVED" {
        return Approved;
      }
      return Unknown;
    } else {
      return NotApproved;
    }
  }

  /**
   * The account counts as approved exactly when some approval is named
   * "signup", no earlier one is, and its state is "APPROVED".
   */
  lemma ApprovedIff(approvals: seq<Approval>)
    ensures ApprovalVerdict(approvals) == Approved
        <==> exists k :: 0 <= k < |approvals| && approvals[k].name == "signup" && approvals[k].state == "APPROVED"
                         && forall j :: 0 <= j < k ==> approvals[j].name != "signup"
  {
  }

  /** An account without a signup approval (treated as deleted) is not approved. */
  lemma NoSignupIsNotApproved(approvals: seq<Approval>)
    requires forall j :: 0 <= j < |approvals| ==> approvals[j].name != "signup"
    ensures ApprovalVerdict(approvals) == NotApproved
  {
  }

  /** A first signup approval still "PENDING" means not approved. */
  lemma PendingIsNotApproved(before: seq<Approval>, signup: Approval, after: seq<Approval>)
    requires forall j :: 0 <= j < |before| ==> before[j].name != "signup"
    requires signup.name == "signup" && signup.state == "PENDING"
    ensures ApprovalVerdict(before + [signup] + after) == NotApproved
  {
    FirstSignupAt(before, signup, after);
  }

  /** A first signup approval in any other state leaves the verdict unknown (Python `None`). */
  lemma OtherStateIsUnknown(before: seq<Approval>, signup: Approval, after: seq<Approval>)
    requires forall j :: 0 <= j < |before| ==> before[j].name != "signup"
    requires signup.name == "signup" && signup.state != "PENDING" && signup.state != "APPROVED"
    ensures ApprovalVerdict(before + [signup] + after) == Unknown
    ensures !Truthy(ApprovalVerdict(before + [signup] + after))
  {
    FirstSignupAt(before, signup, after);
  }

  /**
   * Only the first signup approval matters: whatever follows it, later
   * signup approvals included, does not change the verdict.
   */
  lemma LaterApprovalsIgnored(before: seq<Approval>, signup: Approval, after: seq<Approval>, after': seq<Approval>)
    requires forall j :: 0 <= j < |before| ==> before[j].name != "signup"
    requires signup.name == "signup"
    ensures ApprovalVerdict(before + [signup] + after) == ApprovalVerdict(before + [signup] + after')
    ensures ApprovalVerdict(before + [signup] + after) == Classify(Some(signup))
  {
    FirstSignupAt(before, signup, after);
    FirstSignupAt(before, signup, after');
  }

  /** The first signup approval sits right after a signup-free prefix. */
  lemma FirstSignupAt(before: seq<Approval>, signup: Approval, after: seq<Approval>)
    requires forall j :: 0 <= j < |before| ==> before[j].name != "signup"
    requires signup.name == "signup"
    ensures FirstSignup(before + [signup] + after) == Some(|before|)
  {
    var s := before + [signup] + after;
    assert s[|before|] == signup;
    assert forall j :: 0 <= j < |before| ==> s[j] == before[j];
  }

}
