/** One-time codes and browser sessions (internal/httpapi/session.go). */
module Sessions {
  import opened Wrappers
  import opened Auth

  /** Times and durations in nanoseconds. */
  type Nano = nat

  const CODE_TTL: Nano := 60 * 1_000_000_000
  const SESSION_TTL: Nano := 12 * 60 * 60 * 1_000_000_000

  datatype Grant = Grant(id: Identity, expires: Nano)

  type Grants = map<Digest, Grant>

  /** Whom an entry stands for at a time. */
  function Lookup(m: Grants, h: Digest, t: Nano): Option<Identity> {
    if h in m && t <= m[h].expires then Some(m[h].id) else None
  }

  function Unexpired(m: Grants, now: Nano): Grants {
    map h | h in m && now <= m[h].expires :: m[h]
  }

  /** Sweeping changes no answer given from then on. */
  lemma SweepIsInvisible(m: Grants, now: Nano, h: Digest, t: Nano)
    requires now <= t
    ensures Lookup(Unexpired(m, now), h, t) == Lookup(m, h, t)
  {
  }

  // ---- the ideal ledger: what happened, without maps, hashes, expiry times or sweeps ----

  /** A call that asked for a code, or presented one; `token` is the session token made if it was accepted. */
  datatype Call =
    | NewCode(id: Identity, code: string, at: Nano)
    | Exchange(code: string, token: string, at: Nano)

  datatype Issue = Issue(id: Identity, at: Nano)

  /** The issue of a code that has not been exchanged. */
  function OpenCode(past: seq<Call>, code: string): Option<Issue> {
    if past == [] then None
    else
      var c, earlier := past[|past| - 1], OpenCode(past[..|past| - 1], code);
      if c.code != code then earlier
      else if c.NewCode? then Some(Issue(c.id, c.at))
      else if IsLive(earlier, CODE_TTL, c.at) then None
      else earlier
  }

  predicate IsLive(i: Option<Issue>, ttl: Nano, t: Nano) {
    i.Some? && t <= i.value.at + ttl
  }

  function HolderOf(i: Option<Issue>, ttl: Nano, t: Nano): Option<Identity> {
    if IsLive(i, ttl, t) then Some(i.value.id) else None
  }

  /** Who may exchange the code at a time. */
  function CodeHolder(past: seq<Call>, code: string, t: Nano): Option<Identity> {
    HolderOf(OpenCode(past, code), CODE_TTL, t)
  }

  /** The accepted exchange that made a session token. */
  function OpenSession(past: seq<Call>, token: string): Option<Issue> {
    if past == [] then None
    else
      var c, earlier := past[|past| - 1], past[..|past| - 1];
      if c.Exchange? && c.token == token && CodeHolder(earlier, c.code, c.at).Some?
      then Some(Issue(CodeHolder(earlier, c.code, c.at).value, c.at))
      else OpenSession(earlier, token)
  }

  function SessionHolder(past: seq<Call>, token: string, t: Nano): Option<Identity> {
    HolderOf(OpenSession(past, token), SESSION_TTL, t)
  }

  function LastTime(past: seq<Call>): Nano {
    if past == [] then 0 else past[|past| - 1].at
  }

  predicate IsNewSecret(past: seq<Call>, c: Call) {
    forall d :: d in past ==>
      (c.NewCode? && d.NewCode? ==> d.code != c.code) && (c.Exchange? && d.Exchange? ==> d.token != c.token)
  }

  /** The clock never goes back and every secret is fresh. */
  predicate IsRun(past: seq<Call>) {
    past == [] ||
    (var c, earlier := past[|past| - 1], past[..|past| - 1];
     IsRun(earlier) && LastTime(earlier) <= c.at && IsNewSecret(earlier, c))
  }

  lemma {:induction false} TimesAreOrdered(past: seq<Call>, k: nat)
    requires IsRun(past) && k < |past|
    ensures past[k].at <= LastTime(past)
  {
    if k < |past| - 1 {
      TimesAreOrdered(past[..|past| - 1], k);
    }
  }

  predicate IsIssue(c: Call, id: Identity, code: string) {
    c.NewCode? && c.id == id && c.code == code
  }

  predicate IsPresented(c: Call, code: string) {
    c.Exchange? && c.code == code
  }

  /** The code was issued at `past[k]`, at most 60 seconds ago, and has not been presented since. */
  predicate IsUnusedSince(past: seq<Call>, k: nat, id: Identity, code: string, t: Nano) {
    && k < |past| && IsIssue(past[k], id, code) && t <= past[k].at + 60_000_000_000
    && forall j :: k < j < |past| ==> !IsPresented(past[j], code)
  }

  lemma {:induction false} OpenCodeFinds(past: seq<Call>, code: string) returns (k: nat)
    requires IsRun(past) && OpenCode(past, code).Some?
    ensures k < |past| && IsIssue(past[k], OpenCode(past, code).value.id, code)
    ensures past[k].at == OpenCode(past, code).value.at
    ensures forall j :: k < j < |past| && IsPresented(past[j], code) ==> past[k].at + CODE_TTL < past[j].at
  {
    var c := past[|past| - 1];
    if c.code == code && c.NewCode? {
      k := |past| - 1;
    } else {
      k := OpenCodeFinds(past[..|past| - 1], code);
    }
  }

  lemma {:induction false} UnusedStaysOpen(past: seq<Call>, k: nat, id: Identity, code: string, t: Nano)
    requires IsRun(past) && IsUnusedSince(past, k, id, code, t)
    ensures OpenCode(past, code) == Some(Issue(id, past[k].at))
  {
    var earlier, c := past[..|past| - 1], past[|past| - 1];
    if k < |past| - 1 {
      assert past[k] in earlier;
      UnusedStaysOpen(earlier, k, id, code, t);
    }
  }

  /** A code can be exchanged if and only if it was issued at most 60 seconds ago and never presented since, and
      it stands for whoever asked for it. */
  lemma ExchangeSucceedsIff(past: seq<Call>, code: string, id: Identity, t: Nano)
    requires IsRun(past) && LastTime(past) <= t
    ensures CodeHolder(past, code, t) == Some(id) <==> exists k: nat :: IsUnusedSince(past, k, id, code, t)
  {
    if CodeHolder(past, code, t) == Some(id) {
      var k := OpenCodeFinds(past, code);
      forall j | k < j < |past|
        ensures !IsPresented(past[j], code)
      {
        TimesAreOrdered(past, j);
      }
      assert IsUnusedSince(past, k, id, code, t);
    }
    if k: nat :| IsUnusedSince(past, k, id, code, t) {
      UnusedStaysOpen(past, k, id, code, t);
    }
  }

  predicate IsAccepted(past: seq<Call>, k: nat) {
    k < |past| && past[k].Exchange? && CodeHolder(past[..k], past[k].code, past[k].at).Some?
  }

  lemma {:induction false} RunPrefix(past: seq<Call>, k: nat)
    requires IsRun(past) && k <= |past|
    ensures IsRun(past[..k])
  {
    if k == |past| {
      assert past[..k] == past;
    } else {
      RunPrefix(past[..|past| - 1], k);
      assert past[..|past| - 1][..k] == past[..k];
    }
  }

  lemma SecretsAreFresh(past: seq<Call>, j: nat, k: nat)
    requires IsRun(past) && j < k < |past|
    ensures IsNewSecret(past[..k], past[k]) && past[j] in past[..k] && past[j].at <= past[k].at
  {
    RunPrefix(past, k + 1);
    assert past[..k + 1][..k] == past[..k];
    TimesAreOrdered(past[..k + 1], j);
    assert past[j] == past[..k][j];
  }

  /** The issue that an accepted exchange uses up. */
  lemma AcceptedIssue(past: seq<Call>, j: nat) returns (l: nat)
    requires IsRun(past) && IsAccepted(past, j)
    ensures l < j && past[l].NewCode? && past[l].code == past[j].code && past[j].at <= past[l].at + CODE_TTL
    ensures forall i :: l < i < j && IsPresented(past[i], past[j].code) ==> past[l].at + CODE_TTL < past[i].at
  {
    hide OpenCode;
    RunPrefix(past, j);
    l := OpenCodeFinds(past[..j], past[j].code);
    forall i | l < i < j && IsPresented(past[i], past[j].code)
      ensures past[l].at + CODE_TTL < past[i].at
    {
      assert past[..j][i] == past[i];
    }
  }

  /** Every code is accepted at most once, over any run. */
  lemma CodesAreSingleUse(past: seq<Call>, i: nat, j: nat)
    requires IsRun(past) && i < j && IsAccepted(past, i) && IsAccepted(past, j)
    ensures past[i].code != past[j].code
  {
    hide IsRun, OpenCode;
    var k := AcceptedIssue(past, i);
    var l := AcceptedIssue(past, j);
    SecretsAreFresh(past, i, j);
    if k < l {
      SecretsAreFresh(past, k, l);
    }
  }

  /** The session token was made by an accepted exchange at most 12 hours ago. */
  predicate IsSignIn(past: seq<Call>, k: nat, id: Identity, token: string, t: Nano) {
    && IsAccepted(past, k) && past[k].token == token && t <= past[k].at + 43_200_000_000_000
    && CodeHolder(past[..k], past[k].code, past[k].at) == Some(id)
  }

  /** A session token resolves if and only if an accepted exchange made it at most 12 hours ago, and it stands
      for the holder of the exchanged code. */
  lemma {:induction false} ResolveSucceedsIff(past: seq<Call>, token: string, id: Identity, t: Nano)
    requires IsRun(past)
    ensures SessionHolder(past, token, t) == Some(id) <==> exists k: nat :: IsSignIn(past, k, id, token, t)
  {
    if past != [] {
      var n := |past| - 1;
      var earlier, c := past[..n], past[n];
      ResolveSucceedsIff(earlier, token, id, t);
      forall k: nat | k < n
        ensures IsSignIn(past, k, id, token, t) <==> IsSignIn(earlier, k, id, token, t)
      {
        assert past[..k] == earlier[..k];
      }
      if c.Exchange? && c.token == token && CodeHolder(earlier, c.code, c.at).Some? {
        forall k: nat | k < n
          ensures !IsSignIn(past, k, id, token, t)
        {
          assert past[k] in earlier;
        }
        assert IsSignIn(past, n, id, token, t) <==> SessionHolder(past, token, t) == Some(id);
      }
    }
  }

  // ---- the maps ----

  /** The entries answer for every later time as the ledger does. */
  ghost predicate AgreesOnCodes(codes: Grants, past: seq<Call>) {
    forall code, t :: LastTime(past) <= t ==> Lookup(codes, Hash(code), t) == CodeHolder(past, code, t)
  }

  ghost predicate AgreesOnSessions(live: Grants, past: seq<Call>) {
    forall token, t :: LastTime(past) <= t ==> Lookup(live, Hash(token), t) == SessionHolder(past, token, t)
  }

  lemma OneMoreCall(past: seq<Call>, c: Call)
    requires IsRun(past) && LastTime(past) <= c.at && IsNewSecret(past, c)
    ensures IsRun(past + [c]) && (past + [c])[..|past|] == past && LastTime(past + [c]) == c.at
  {
    assert (past + [c])[..|past|] == past;
  }

  lemma IssueKeepsAgreement(codes: Grants, live: Grants, past: seq<Call>, c: Call)
    requires IsRun(past) && LastTime(past) <= c.at && IsNewSecret(past, c) && c.NewCode?
    requires AgreesOnCodes(codes, past) && AgreesOnSessions(live, past)
    ensures AgreesOnCodes(Unexpired(codes, c.at)[Hash(c.code) := Grant(c.id, c.at + CODE_TTL)], past + [c])
    ensures AgreesOnSessions(Unexpired(live, c.at), past + [c])
  {
    OneMoreCall(past, c);
    var codes' := Unexpired(codes, c.at)[Hash(c.code) := Grant(c.id, c.at + CODE_TTL)];
    forall code, t | c.at <= t
      ensures Lookup(codes', Hash(code), t) == CodeHolder(past + [c], code, t)
    {
      SweepIsInvisible(codes, c.at, Hash(code), t);
      assert Lookup(codes, Hash(code), t) == CodeHolder(past, code, t);
    }
    forall token, t | c.at <= t
      ensures Lookup(Unexpired(live, c.at), Hash(token), t) == SessionHolder(past + [c], token, t)
    {
      SweepIsInvisible(live, c.at, Hash(token), t);
      assert Lookup(live, Hash(token), t) == SessionHolder(past, token, t);
    }
  }

  /** What a refused exchange leaves behind. */
  lemma RefusalKeepsAgreement(codes: Grants, live: Grants, past: seq<Call>, c: Call)
    requires IsRun(past) && LastTime(past) <= c.at && IsNewSecret(past, c) && c.Exchange?
    requires AgreesOnCodes(codes, past) && AgreesOnSessions(live, past)
    requires CodeHolder(past, c.code, c.at).None?
    ensures AgreesOnCodes(Unexpired(codes, c.at), past + [c]) && AgreesOnSessions(Unexpired(live, c.at), past + [c])
  {
    OneMoreCall(past, c);
    forall code, t | c.at <= t
      ensures Lookup(Unexpired(codes, c.at), Hash(code), t) == CodeHolder(past + [c], code, t)
    {
      SweepIsInvisible(codes, c.at, Hash(code), t);
      assert Lookup(codes, Hash(code), t) == CodeHolder(past, code, t);
    }
    forall token, t | c.at <= t
      ensures Lookup(Unexpired(live, c.at), Hash(token), t) == SessionHolder(past + [c], token, t)
    {
      SweepIsInvisible(live, c.at, Hash(token), t);
      assert Lookup(live, Hash(token), t) == SessionHolder(past, token, t);
    }
  }

  /** What an accepted exchange leaves behind: the code is gone and the session is there. */
  lemma AcceptanceUsesCode(codes: Grants, past: seq<Call>, c: Call)
    requires IsRun(past) && LastTime(past) <= c.at && IsNewSecret(past, c) && c.Exchange?
    requires AgreesOnCodes(codes, past) && CodeHolder(past, c.code, c.at).Some?
    ensures AgreesOnCodes(Unexpired(codes, c.at) - {Hash(c.code)}, past + [c])
  {
    OneMoreCall(past, c);
    forall code, t | c.at <= t
      ensures Lookup(Unexpired(codes, c.at) - {Hash(c.code)}, Hash(code), t) == CodeHolder(past + [c], code, t)
    {
      SweepIsInvisible(codes, c.at, Hash(code), t);
      assert Lookup(codes, Hash(code), t) == CodeHolder(past, code, t);
    }
  }

  lemma AcceptanceMakesSession(live: Grants, past: seq<Call>, c: Call, id: Identity)
    requires IsRun(past) && LastTime(past) <= c.at && IsNewSecret(past, c) && c.Exchange?
    requires AgreesOnSessions(live, past) && CodeHolder(past, c.code, c.at) == Some(id)
    ensures AgreesOnSessions(Unexpired(live, c.at)[Hash(c.token) := Grant(id, c.at + SESSION_TTL)], past + [c])
  {
    hide OpenCode;
    OneMoreCall(past, c);
    var live' := Unexpired(live, c.at)[Hash(c.token) := Grant(id, c.at + SESSION_TTL)];
    forall token, t | c.at <= t
      ensures Lookup(live', Hash(token), t) == SessionHolder(past + [c], token, t)
    {
      SweepIsInvisible(live, c.at, Hash(token), t);
      assert Lookup(live, Hash(token), t) == SessionHolder(past, token, t);
    }
  }

  /** One loop of sweep. */
  method SweepMap(m: Grants, now: Nano) returns (r: Grants)
    ensures r == Unexpired(m, now)
  {
    r := m;
    var keys := m.Keys;
    while keys != {}
      invariant keys <= m.Keys && r.Keys <= m.Keys
      invariant forall h :: h in m ==> (h in r <==> h in keys || now <= m[h].expires)
      invariant forall h :: h in r ==> r[h] == m[h]
    {
      var h :| h in keys;
      keys := keys - {h};
      if now > m[h].expires {
        r := r - {h};
      }
    }
  }

  class SessionTable {
    var codes: Grants
    var live: Grants
    ghost var past: seq<Call>

    ghost predicate Valid()
      reads this
    {
      IsRun(past) && AgreesOnCodes(codes, past) && AgreesOnSessions(live, past)
    }

    /** Every entry can still be used. */
    ghost predicate IsSwept(now: Nano)
      reads this
    {
      && (forall h :: h in codes ==> now <= codes[h].expires)
      && (forall h :: h in live ==> now <= live[h].expires)
    }

    constructor ()
      ensures Valid() && past == []
    {
      codes, live, past := map[], map[], [];
    }

    method Sweep(now: Nano)
      modifies `codes, `live
      ensures codes == Unexpired(old(codes), now) && live == Unexpired(old(live), now)
    {
      codes := SweepMap(codes, now);
      live := SweepMap(live, now);
    }

    /** Issues a code for an identity; `code` is the fresh secret. */
    method IssueCode(id: Identity, code: string, now: Nano) returns (expires: Nano)
      requires Valid() && LastTime(past) <= now && IsNewSecret(past, NewCode(id, code, now))
      modifies this
      ensures Valid() && IsSwept(now)
      ensures past == old(past) + [NewCode(id, code, now)]
      ensures expires == now + 60_000_000_000
      ensures forall t :: now <= t <= expires ==> CodeHolder(past, code, t) == Some(id)
    {
      ghost var c := NewCode(id, code, now);
      OneMoreCall(past, c);
      IssueKeepsAgreement(codes, live, past, c);
      Sweep(now);
      expires := now + CODE_TTL;
      codes := codes[Hash(code) := Grant(id, expires)];
      past := past + [c];
    }

    /** Trades a code for a session; `token` is the fresh session token. */
    method TradeCode(code: string, token: string, now: Nano) returns (r: Option<Identity>)
      requires Valid() && LastTime(past) <= now && IsNewSecret(past, Exchange(code, token, now))
      modifies this
      ensures Valid() && IsSwept(now)
      ensures past == old(past) + [Exchange(code, token, now)]
      ensures r == CodeHolder(old(past), code, now)
      ensures r.Some? ==> forall t :: now <= t <= now + 43_200_000_000_000 ==> SessionHolder(past, token, t) == r
      ensures r.Some? ==> forall t :: now <= t ==> CodeHolder(past, code, t) == None
    {
      ghost var c := Exchange(code, token, now);
      OneMoreCall(past, c);
      assert Lookup(codes, Hash(code), now) == CodeHolder(past, code, now);
      if CodeHolder(past, code, now).None? {
        RefusalKeepsAgreement(codes, live, past, c);
      } else {
        AcceptanceUsesCode(codes, past, c);
        AcceptanceMakesSession(live, past, c, CodeHolder(past, code, now).value);
      }
      past := past + [c];
      Sweep(now);
      var h := Hash(code);
      if h !in codes {
        return None;
      }
      var g := codes[h];
      codes := codes - {h};
      live := live[Hash(token) := Grant(g.id, now + SESSION_TTL)];
      r := Some(g.id);
    }

    /** Who a session token stands for. */
    method Resolve(token: string, now: Nano) returns (r: Option<Identity>)
      requires Valid() && LastTime(past) <= now
      ensures r == SessionHolder(past, token, now)
    {
      assert Lookup(live, Hash(token), now) == SessionHolder(past, token, now);
      var h := Hash(token);
      if h !in live || now > live[h].expires {
        return None;
      }
      r := Some(live[h].id);
    }
  }
}
