/**
 * The resource names the procurement API client builds and parses
 * (`get_account_name`, `get_account_id`, `_get_entitlement_name`,
 * `get_entitlement_id`). The environment prefix and the project id are fixed
 * when the client is created, so they travel together as a `Provider`.
 */
module ResourceNames {
  import opened Strings

  /** The prefix and project id every resource name of one client is scoped under. */
  datatype Provider = Provider(prefix: string, projectId: string)

  /** The prefix is "DEMO-" in the codelab/demo environment and empty otherwise. */
  function ProjectPrefix(isCodelab: bool): (prefix: string)
    ensures prefix == "" <==> !isCodelab
  {
    if isCodelab then "DEMO-" else ""
  }

  /** `providers/{prefix}{project_id}`, the parent of all accounts and entitlements. */
  function ProviderPath(p: Provider): string
  {
    "providers/" + p.prefix + p.projectId
  }

  /** The leading text of every account name: `providers/{prefix}{project_id}/accounts/`. */
  function AccountsPath(p: Provider): string
  {
    ProviderPath(p) + "/accounts/"
  }

  /** `get_account_name`: the account id appended to the accounts path. */
  function AccountName(p: Provider, accountId: string): (name: string)
    ensures AccountsPath(p) <= name
    ensures |name| == |AccountsPath(p)| + |accountId|
  {
    AccountsPath(p) + accountId
  }

  /**
   * `get_account_id`: Python's `name[len(accounts_path):]`. It drops as many
   * characters as the accounts path has without looking at them, and a name
   * shorter than that path gives the empty string.
   */
  function AccountId(p: Provider, name: string): (id: string)
    ensures IsSuffix(id, name)
    ensures |id| == if |name| <= |AccountsPath(p)| then 0 else |name| - |AccountsPath(p)|
  {
    var n := |AccountsPath(p)|;
    if n <= |name| then name[n..] else ""
  }

  /** Every account id survives being turned into a name and parsed back. */
  lemma AccountIdOfAccountName(p: Provider, accountId: string)
    ensures AccountId(p, AccountName(p, accountId)) == accountId
  {
  }

  /**
   * A name is rebuilt from its parsed id exactly when it starts with the
   * accounts path of this provider.
   */
  lemma {:induction false} AccountNameOfAccountId(p: Provider, name: string)
    ensures AccountName(p, AccountId(p, name)) == name <==> AccountsPath(p) <= name
  {
  }

  /**
   * The parser never checks the prefix: any leading text as long as the
   * accounts path is dropped, whatever provider, environment or collection
   * it names.
   */
  lemma AccountIdIgnoresLeadingText(p: Provider, lead: string, id: string)
    requires |lead| == |AccountsPath(p)|
    ensures AccountId(p, lead + id) == id
  {
  }

  /** `_get_entitlement_name`: `providers/{prefix}{project_id}/entitlements/{id}`. */
  function EntitlementName(p: Provider, entitlementId: string): (name: string)
    ensures ProviderPath(p) + "/entitlements/" <= name
    ensures IsSuffix(entitlementId, name)
    ensures |name| == |ProviderPath(p) + "/entitlements/"| + |entitlementId|
  {
    var lead := ProviderPath(p) + "/entitlements/";
    assert (lead + entitlementId)[|lead|..] == entitlementId;
    lead + entitlementId
  }

  /**
   * `get_entitlement_id`: Python's `name.split("/")[-1]`, the text after the
   * last slash, or the whole name when it has none.
   */
  function EntitlementId(name: string): (id: string)
    ensures '/' !in id
    ensures IsSuffix(id, name)
    ensures '/' !in name ==> id == name
    ensures '/' in name ==> |id| < |name| && name[|name| - |id| - 1] == '/'
  {
    LastPartIsSuffix(name, '/');
    SepBeforeLastPart(name, '/');
    Last(Split(name, '/'))
  }

  /**
   * An entitlement id is recovered from its name exactly when it contains
   * no slash; an id with a slash comes back as its text after the last slash.
   */
  lemma {:induction false} EntitlementIdOfEntitlementName(p: Provider, entitlementId: string)
    ensures EntitlementId(EntitlementName(p, entitlementId)) == entitlementId <==> '/' !in entitlementId
  {
    if '/' !in entitlementId {
      var a := ProviderPath(p) + "/entitlements";
      assert EntitlementName(p, entitlementId) == a + ['/'] + entitlementId;
      LastPartAfterLastSep(a, entitlementId, '/');
    }
  }

}
