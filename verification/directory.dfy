/** The fixed account directory the login handlers share: ten accounts, each
    with a name, a password, the id of the stream that occupies it (`""` when
    none does) and a count of failed logins. Account indexes are positions in
    the directory; `-1` stands for "no account", as in the handlers. */
module Directory {

  datatype Account = Account(name: string, passwd: string, authd: string, retries: nat)

  /** A failed login counts against an account until the third one. */
  const MaxRetries: nat := 3

  /** The directory every handler starts from: all accounts unoccupied and
      with no failed logins. */
  function Initial(): (dir: seq<Account>)
    ensures |dir| == 10
    ensures forall k :: 0 <= k < |dir| ==> dir[k].authd == "" && dir[k].retries == 0
  {
    [ Account("superadmin", "P@ssw0rd!", "", 0),
      Account("auditor", "Secur3!2023", "", 0),
      Account("dev_user", "d3v3l0p3r", "", 0),
      Account("tester", "t3st3r!123", "", 0),
      Account("analyst", "Data2023!", "", 0),
      Account("support", "HelpDesk!", "", 0),
      Account("reports", "R3port$", "", 0),
      Account("backup", "B@ckUp123", "", 0),
      Account("api_user", "Ap1K3y!2023", "", 0),
      Account("guest", "T3mpPass!", "", 0) ]
  }

  predicate ValidIndex(dir: seq<Account>, i: int) {
    i == -1 || 0 <= i < |dir|
  }

  /** The state every reachable directory is in: no account has more than
      three failed logins, and an occupied account has none. */
  predicate WellFormed(dir: seq<Account>) {
    forall k :: 0 <= k < |dir| ==> dir[k].retries <= MaxRetries && (dir[k].authd != "" ==> dir[k].retries == 0)
  }

  predicate NamesDistinct(dir: seq<Account>) {
    forall i, j :: 0 <= i < j < |dir| ==> dir[i].name != dir[j].name
  }

  lemma InitialWellFormed()
    ensures WellFormed(Initial())
    ensures NamesDistinct(Initial())
  {
  }

  /** The Python handlers stop the name search at the first match; the Go
      handler has no `break` and keeps the last. */
  datatype LookupOrder = FirstMatch | LastMatch

  /** The index of the first account at or after `from` named `name`. */
  function FirstFrom(dir: seq<Account>, name: string, from: nat): (i: int)
    requires from <= |dir|
    ensures i == -1 || (from <= i < |dir| && dir[i].name == name)
    ensures i == -1 ==> forall k :: from <= k < |dir| ==> dir[k].name != name
    ensures i != -1 ==> forall k :: from <= k < i ==> dir[k].name != name
    decreases |dir| - from
  {
    if from == |dir| then -1
    else if dir[from].name == name then from
    else FirstFrom(dir, name, from + 1)
  }

  /** The index of the last account below `n` named `name`. */
  function LastBelow(dir: seq<Account>, name: string, n: nat): (i: int)
    requires n <= |dir|
    ensures i == -1 || (0 <= i < n && dir[i].name == name)
    ensures i == -1 ==> forall k :: 0 <= k < n ==> dir[k].name != name
    ensures i != -1 ==> forall k :: i < k < n ==> dir[k].name != name
  {
    if n == 0 then -1
    else if dir[n - 1].name == name then n - 1
    else LastBelow(dir, name, n - 1)
  }

  /** The account a login names, or -1 if none does. */
  function Lookup(dir: seq<Account>, name: string, order: LookupOrder): (i: int)
    ensures i == -1 <==> forall k :: 0 <= k < |dir| ==> dir[k].name != name
    ensures i != -1 ==> 0 <= i < |dir| && dir[i].name == name
    ensures i != -1 && order == FirstMatch ==> forall k :: 0 <= k < i ==> dir[k].name != name
    ensures i != -1 && order == LastMatch ==> forall k :: i < k < |dir| ==> dir[k].name != name
  {
    match order
    case FirstMatch => FirstFrom(dir, name, 0)
    case LastMatch => LastBelow(dir, name, |dir|)
  }

  /** The name search of the login handlers, as the loop runs it: the
      session's index is overwritten at a matching account, and the search
      stops there (Python) or goes on (Go), so a name that matches nothing
      leaves the index it had. */
  method ScanNames(dir: seq<Account>, name: string, cuid: int, order: LookupOrder) returns (t: int)
    ensures Lookup(dir, name, order) != -1 ==> t == Lookup(dir, name, order)
    ensures Lookup(dir, name, order) == -1 ==> t == cuid
  {
    t := cuid;
    var found := false;
    var i := 0;
    while i < |dir|
      invariant 0 <= i <= |dir|
      invariant found <==> exists k :: 0 <= k < i && dir[k].name == name
      invariant !found ==> t == cuid
      invariant found ==> order == LastMatch && t == LastBelow(dir, name, i)
    {
      if dir[i].name == name {
        t := i;
        found := true;
        if order == FirstMatch {
          break;
        }
      }
      i := i + 1;
    }
  }

  /** With distinct names, as in the shipped table, the Go and the Python
      lookups agree. */
  lemma LookupOrderIrrelevant(dir: seq<Account>, name: string)
    requires NamesDistinct(dir)
    ensures Lookup(dir, name, FirstMatch) == Lookup(dir, name, LastMatch)
  {
  }

  /** With a repeated name the two lookups pick different accounts: the
      first one at or before the earlier copy, the last one at or after the
      later copy. */
  lemma LookupOrderMattersOnDuplicates(dir: seq<Account>, name: string, i: nat, j: nat)
    requires i < j < |dir| && dir[i].name == name && dir[j].name == name
    ensures Lookup(dir, name, FirstMatch) <= i < j <= Lookup(dir, name, LastMatch)
    ensures Lookup(dir, name, FirstMatch) != Lookup(dir, name, LastMatch)
  {
  }
}
