/** The token file and the cache in front of it (File in internal/auth/auth.go). */
module TokenFile {
  import opened Wrappers
  import opened Strings
  import opened Timestamps
  import opened Ordering
  import opened Auth

  datatype Entry = Entry(name: string, hash: Digest, projects: seq<string>, created: Instant)

  type Tokens = map<Digest, Identity>

  // ---- the ledger ----

  /** A change of the token file by any process. */
  datatype Change = Added(e: Entry) | Revoked(name: string) | Replaced(entries: seq<Entry>)

  function Without(entries: seq<Entry>, name: string): seq<Entry> {
    Where(entries, (e: Entry) => e.name != name)
  }

  function Changed(before: seq<Entry>, c: Change): seq<Entry> {
    match c
    case Added(e) => before + [e]
    case Revoked(name) => Without(before, name)
    case Replaced(entries) => entries
  }

  /** The entries after a series of changes. */
  function Ledger(log: seq<Change>): seq<Entry> {
    if log == [] then [] else Changed(Ledger(log[..|log| - 1]), log[|log| - 1])
  }

  lemma OneMoreChange(log: seq<Change>, c: Change)
    ensures Ledger(log + [c]) == Changed(Ledger(log), c)
  {
    assert (log + [c])[..|log|] == log;
  }

  /** The first entry with a hash, or the number of entries. */
  function FindHash(entries: seq<Entry>, h: Digest, from: nat): (i: nat)
    requires from <= |entries|
    ensures from <= i <= |entries|
    ensures i < |entries| ==> entries[i].hash == h
    ensures forall j :: from <= j < i ==> entries[j].hash != h
    decreases |entries| - from
  {
    if from == |entries| || entries[from].hash == h then from else FindHash(entries, h, from + 1)
  }

  function IdentityOf(e: Entry): Identity {
    Identity(e.name, e.projects)
  }

  /** Whom a secret stands for. */
  function Answer(entries: seq<Entry>, static_: Tokens, h: Digest): Option<Identity> {
    var i := FindHash(entries, h, 0);
    if i < |entries| then Some(IdentityOf(entries[i]))
    else if h in static_ then Some(static_[h])
    else None
  }

  predicate AddsHash(c: Change, h: Digest) {
    c.Added? && c.e.hash == h
  }

  /** Only additions, each with a fresh secret, and revocations. */
  predicate IsRun(log: seq<Change>) {
    log == [] ||
    (var c, earlier := log[|log| - 1], log[..|log| - 1];
     IsRun(earlier) && !c.Replaced? && (c.Added? ==> forall d :: d in earlier ==> !AddsHash(d, c.e.hash)))
  }

  /** The token was added by `log[k]` and its name has not been revoked since. */
  predicate IsGranted(log: seq<Change>, k: nat, h: Digest, id: Identity) {
    && k < |log| && AddsHash(log[k], h) && IdentityOf(log[k].e) == id
    && forall j :: k < j < |log| ==> log[j] != Revoked(id.user)
  }

  /** Every listed token was granted. */
  lemma {:induction false} GrantOf(log: seq<Change>, e: Entry) returns (k: nat)
    requires IsRun(log) && e in Ledger(log)
    ensures IsGranted(log, k, e.hash, IdentityOf(e)) && log[k].e == e
  {
    var n := |log| - 1;
    var c := log[n];
    if c.Added? && c.e == e {
      k := n;
    } else {
      k := GrantOf(log[..n], e);
    }
  }

  /** Every granted token is listed. */
  lemma {:induction false} GrantedIsListed(log: seq<Change>, k: nat, h: Digest, id: Identity)
    requires IsRun(log) && IsGranted(log, k, h, id)
    ensures log[k].e in Ledger(log)
  {
    var n := |log| - 1;
    if k < n {
      GrantedIsListed(log[..n], k, h, id);
    }
  }

  /** No two listed tokens have the same secret. */
  lemma {:induction false} SecretsAreDistinct(log: seq<Change>, d: Entry, e: Entry)
    requires IsRun(log) && d in Ledger(log) && e in Ledger(log) && d.hash == e.hash
    ensures d == e
  {
    var n := |log| - 1;
    var earlier, c := log[..n], log[n];
    if d in Ledger(earlier) && e in Ledger(earlier) {
      SecretsAreDistinct(earlier, d, e);
    } else if d in Ledger(earlier) {
      var k := GrantOf(earlier, d);
    } else if e in Ledger(earlier) {
      var k := GrantOf(earlier, e);
    }
  }

  predicate IsStatic(log: seq<Change>, static_: Tokens, h: Digest, id: Identity) {
    h in static_ && static_[h] == id && forall e :: e in Ledger(log) ==> e.hash != h
  }

  /** A secret stands for an identity if and only if it was added for it and the name has not been revoked since,
      or it is a static token. */
  lemma AnswerIff(log: seq<Change>, static_: Tokens, h: Digest, id: Identity)
    requires IsRun(log)
    ensures Answer(Ledger(log), static_, h) == Some(id) <==>
      (exists k: nat :: IsGranted(log, k, h, id)) || IsStatic(log, static_, h, id)
  {
    var entries := Ledger(log);
    var i := FindHash(entries, h, 0);
    if i < |entries| {
      var k := GrantOf(log, entries[i]);
    }
    if k: nat :| IsGranted(log, k, h, id) {
      GrantedIsListed(log, k, h, id);
      assert i < |entries|;
      SecretsAreDistinct(log, log[k].e, entries[i]);
    }
  }

  // ---- revoking in place ----

  lemma NothingKept(entries: seq<Entry>, name: string)
    ensures Without(entries[..0], name) == []
  {
  }

  lemma OneMoreEntry(entries: seq<Entry>, i: nat, name: string)
    requires i < |entries|
    ensures Without(entries[..i + 1], name) ==
      Without(entries[..i], name) + if entries[i].name == name then [] else [entries[i]]
  {
    assert entries[..i + 1] == entries[..i] + [entries[i]];
    WhereAppend(entries[..i], entries[i], (x: Entry) => x.name != name);
  }

  /** The loop of Revoke: keeps the entries of other names, in order, in the front of the same array. */
  method Compact(a: array<Entry>, n: nat, name: string) returns (kept: nat, removed: nat)
    requires n <= a.Length
    modifies a
    ensures kept <= n && kept + removed == n
    ensures a[..kept] == Without(old(a[..n]), name)
  {
    hide Without;
    kept, removed := 0, 0;
    ghost var was := a[..n];
    NothingKept(was, name);
    for i := 0 to n
      invariant kept + removed == i
      invariant a[..kept] == Without(was[..i], name)
      invariant a[i..n] == was[i..]
    {
      var e := a[i];
      assert e == a[i..n][0] == was[i];
      OneMoreEntry(was, i, name);
      assert a[i + 1..n] == a[i..n][1..] == was[i + 1..];
      if e.name == name {
        removed := removed + 1;
        continue;
      }
      a[kept] := e;
      kept := kept + 1;
      assert a[..kept] == a[..kept - 1] + [e];
    }
    assert was[..n] == was;
  }

  // ---- the file and its cache ----

  /** A modification time; 0 is Go's zero time, which no file has. */
  type Mtime = nat

  datatype Saved = Saved(mtime: Mtime, entries: seq<Entry>)

  datatype Error = BadName | NoProjects | SaveFailed

  /** What a process remembers was once the content of the file. */
  ghost predicate CacheIsTrue(versions: map<Mtime, seq<Entry>>, mtime: Mtime, entries: seq<Entry>) {
    mtime != 0 ==> mtime in versions && versions[mtime] == entries
  }

  /** Saves only add versions. */
  ghost predicate IsExtended(before: map<Mtime, seq<Entry>>, after: map<Mtime, seq<Entry>>) {
    forall m :: m in before ==> m in after && after[m] == before[m]
  }

  /** The token file, which several processes share. */
  class Disk {
    var file: Option<Saved>
    ghost var log: seq<Change>
    ghost var versions: map<Mtime, seq<Entry>>

    ghost predicate Valid()
      reads this
    {
      && Entries() == Ledger(log) && 0 !in versions
      && (file.Some? ==> CacheIsTrue(versions, file.value.mtime, file.value.entries) && file.value.mtime != 0)
    }

    function Entries(): seq<Entry>
      reads this
    {
      if file.None? then [] else file.value.entries
    }

    constructor ()
      ensures Valid() && log == [] && file == None
    {
      file, log, versions := None, [], map[];
    }

    /** Writing the temporary file and renaming it. */
    method Save(entries: seq<Entry>, newMtime: Mtime, ghost c: Change)
      requires Valid() && newMtime != 0 && newMtime !in versions && Ledger(log + [c]) == entries
      modifies this
      ensures Valid() && Entries() == entries && file == Some(Saved(newMtime, entries))
      ensures log == old(log) + [c] && versions == old(versions)[newMtime := entries]
    {
      file := Some(Saved(newMtime, entries));
      log, versions := log + [c], versions[newMtime := entries];
    }
  }

  function HasBadChar(name: string): bool {
    exists i :: 0 <= i < |name| && (name[i] == ':' || name[i] == ',' || name[i] == ' ')
  }

  lemma BadNames(name: string)
    ensures TrimSpace(name) == "" <==> IsBlank(name)
    ensures var n := TrimSpace(name); HasBadChar(n) <==> ':' in n || ',' in n || ' ' in n
  {
    hide Strings.TrimSpace, IsBlank;
    var a, b := TrimSpaceRemovesOnlySpace(name);
  }

  class File {
    const disk: Disk
    const static_: Tokens
    var entries: array<Entry>
    var len: nat
    var mtime: Mtime

    ghost function Contents(): seq<Entry>
      reads this, entries
    {
      if len <= entries.Length then entries[..len] else []
    }

    ghost predicate IsWhole()
      reads this, entries, disk
    {
      disk.Valid() && len <= entries.Length
    }

    /** The cache is what the file was at the time it remembers. A failed save breaks this, and nothing else. */
    ghost predicate Valid()
      reads this, entries, disk
    {
      IsWhole() && CacheIsTrue(disk.versions, mtime, Contents())
    }

    /** The cache after a load: empty without a file, kept if the file's time is the remembered one or the file
        cannot be read, and the file's content otherwise. */
    ghost function Loaded(readable: bool): seq<Entry>
      reads this, entries, disk
    {
      if disk.file.None? then []
      else if disk.file.value.mtime == mtime || !readable then Contents()
      else disk.Entries()
    }

    /** What a forced load gives. */
    ghost function Reloaded(readable: bool): seq<Entry>
      reads this, entries, disk
    {
      if readable || disk.file.None? then disk.Entries() else Contents()
    }

    /** The time it remembers: none unless it has read the file. */
    ghost function ReloadedMtime(readable: bool): Mtime
      reads this, disk
    {
      if readable && disk.file.Some? then disk.file.value.mtime else 0
    }

    constructor (disk: Disk, static_: Tokens)
      requires disk.Valid()
      ensures Valid() && this.disk == disk && this.static_ == static_ && fresh(entries) && Contents() == []
    {
      this.disk, this.static_ := disk, static_;
      entries := new Entry[] [];
      len, mtime := 0, 0;
    }

    /** Re-reads the file when its modification time has changed; `readable` says whether it can be read and
        decoded. */
    method Load(readable: bool)
      requires IsWhole()
      modifies this
      ensures IsWhole() && (entries == old(entries) || fresh(entries))
      ensures Contents() == old(Loaded(readable))
      ensures old(Valid()) ==> Valid() && (readable ==> Contents() == disk.Entries())
      ensures old(mtime) == 0 ==> Contents() == old(Reloaded(readable)) && mtime == old(ReloadedMtime(readable))
    {
      if disk.file.None? {
        entries := new Entry[] [];
        len, mtime := 0, 0;
        return;
      }
      var st := disk.file.value;
      if st.mtime == mtime {
        return;
      }
      if readable {
        entries := new Entry[|st.entries|](i requires 0 <= i < |st.entries| => st.entries[i]);
        len, mtime := |st.entries|, st.mtime;
        assert entries[..len] == st.entries;
      }
    }

    /** Whom a secret stands for. With a readable file the answer is that of the ledger, unless a save has failed
        and the file's time is still the remembered one. */
    method Resolve(secret: string, readable: bool) returns (r: Option<Identity>)
      requires IsWhole()
      modifies this
      ensures IsWhole() && (old(Valid()) ==> Valid())
      ensures r == Answer(old(Loaded(readable)), static_, Hash(secret))
      ensures readable && (old(Valid()) || disk.file.None? || disk.file.value.mtime != old(mtime)) ==>
        r == Answer(Ledger(disk.log), static_, Hash(secret))
    {
      Load(readable);
      var h := Hash(secret);
      for i := 0 to len
        invariant FindHash(Contents(), h, 0) == FindHash(Contents(), h, i)
      {
        var e := entries[i];
        if e.hash == h {
          return Some(Identity(e.name, e.projects));
        }
      }
      r := if h in static_ then Some(static_[h]) else None;
    }

    /** Appends a token and saves. If the save fails, the file is unchanged but the cache already holds the
        token; if the file could not be read, the save replaces it by what the cache held. */
    method Add(
        name: string, projects: seq<string>, secret: string, now: Instant, readable: bool, saved: bool, newMtime: Mtime)
      returns (r: Result<string, Error>)
      requires IsWhole() && newMtime != 0 && newMtime !in disk.versions
      modifies this, disk
      ensures IsWhole()
      ensures disk.Valid() && (r.Err? ==> disk.file == old(disk.file) && disk.log == old(disk.log))
      ensures r == Err(BadName) <==>
        IsBlank(name) || ':' in TrimSpace(name) || ',' in TrimSpace(name) || ' ' in TrimSpace(name)
      ensures r == Err(NoProjects) <==> r != Err(BadName) && projects == []
      ensures r == Err(SaveFailed) <==> r != Err(BadName) && projects != [] && !saved
      ensures r == Err(BadName) || r == Err(NoProjects) ==> unchanged(this)
      ensures var e := Entry(TrimSpace(name), Hash(secret), projects, now);
        (r.Ok? || r == Err(SaveFailed)) ==> Contents() == old(Reloaded(readable)) + [e]
      ensures var e := Entry(TrimSpace(name), Hash(secret), projects, now);
        r.Ok? ==> disk.log == old(disk.log) + [if readable then Added(e) else Replaced(old(Reloaded(readable)) + [e])]
      ensures r.Ok? ==> Valid() && r.value == secret && disk.file == Some(Saved(newMtime, Contents()))
      ensures r == Err(SaveFailed) ==> mtime == old(ReloadedMtime(readable))
      ensures IsExtended(old(disk.versions), disk.versions)
    {
      hide Ledger, Strings.TrimSpace, HasBadChar, IsBlank;
      var n := TrimSpace(name);
      BadNames(name);
      if n == "" || HasBadChar(n) {
        return Err(BadName);
      }
      if projects == [] {
        return Err(NoProjects);
      }
      mtime := 0;
      Load(readable);
      var e := Entry(n, Hash(secret), projects, now);
      Append(e);
      if !saved {
        return Err(SaveFailed);
      }
      ghost var c := if readable then Added(e) else Replaced(Contents());
      OneMoreChange(disk.log, c);
      disk.Save(entries[..len], newMtime, c);
      mtime := 0;
      r := Ok(secret);
    }

    method Append(e: Entry)
      requires len <= entries.Length
      modifies this
      ensures len <= entries.Length && fresh(entries) && Contents() == old(Contents()) + [e] && mtime == old(mtime)
    {
      var a := new Entry[len + 1](i requires 0 <= i <= len && len <= entries.Length reads this, entries =>
        if i < len then entries[i] else e);
      assert a[..len] == entries[..len];
      entries, len := a, len + 1;
      assert entries[..len] == entries[..len - 1] + [e];
    }

    /** Loads the file and drops every token of a name from the cache. */
    method Drop(name: string, readable: bool) returns (removed: nat)
      requires IsWhole() && mtime == 0
      modifies this, entries
      ensures IsWhole() && mtime == old(ReloadedMtime(readable))
      ensures Contents() == Without(old(Reloaded(readable)), name)
      ensures removed + |Contents()| == |old(Reloaded(readable))|
      ensures removed > 0 <==> exists e :: e in old(Reloaded(readable)) && e.name == name
      ensures removed == 0 ==> Contents() == old(Reloaded(readable))
    {
      hide Ledger, Ordering.Where;
      Load(readable);
      ghost var loaded := Contents();
      var kept;
      kept, removed := Compact(entries, len, name);
      len := kept;
      if removed == 0 {
        WhereAll(loaded, (e: Entry) => e.name != name);
      } else {
        SomethingRemoved(loaded, name);
      }
    }

    /** Removes every token of a name and says how many there were. */
    method Revoke(name: string, readable: bool, saved: bool, newMtime: Mtime) returns (r: Result<nat, Error>)
      requires IsWhole() && newMtime != 0 && newMtime !in disk.versions
      modifies this, entries, disk
      ensures IsWhole()
      ensures disk.Valid() && (r.Err? ==> disk.file == old(disk.file) && disk.log == old(disk.log))
      ensures Contents() == Without(old(Reloaded(readable)), name)
      ensures r.Ok? ==> Valid() && r.value + |Contents()| == |old(Reloaded(readable))|
      ensures r.Err? <==> !saved && exists e :: e in old(Reloaded(readable)) && e.name == name
      ensures r.Err? ==> mtime == old(ReloadedMtime(readable))
      ensures r == Ok(0) ==> disk.file == old(disk.file) && disk.log == old(disk.log)
      ensures r.Ok? && r.value > 0 ==> disk.Entries() == Contents()
      ensures r.Ok? && r.value > 0 ==>
        disk.log == old(disk.log) + [if readable then Revoked(name) else Replaced(Contents())]
      ensures IsExtended(old(disk.versions), disk.versions)
    {
      hide Ledger, Without;
      mtime := 0;
      var removed := Drop(name, readable);
      if removed == 0 {
        return Ok(0);
      }
      if !saved {
        return Err(SaveFailed);
      }
      ghost var c := if readable then Revoked(name) else Replaced(Contents());
      OneMoreChange(disk.log, c);
      disk.Save(entries[..len], newMtime, c);
      mtime := 0;
      r := Ok(removed);
    }
  }

  /** Fewer entries are left only if some had the name. */
  lemma {:induction false} SomethingRemoved(entries: seq<Entry>, name: string)
    requires |Without(entries, name)| < |entries|
    ensures exists e :: e in entries && e.name == name
  {
    var front, last := entries[..|entries| - 1], entries[|entries| - 1];
    if last.name != name {
      SomethingRemoved(front, name);
    }
  }

  // ---- after a failed save ----

  /** No entry and no static token has this secret. */
  ghost predicate IsUnknown(f: File, secret: string)
    reads f, f.entries, f.disk
  {
    && Hash(secret) !in f.static_
    && (forall e :: e in f.disk.Entries() ==> e.hash != Hash(secret))
    && (forall e :: e in f.Contents() ==> e.hash != Hash(secret))
  }

  /** A token whose save failed is served by the process all the same, if and only if the file exists, and was
      readable then or is unreadable now. */
  method UnsavedTokenIsServed(
      f: File, name: string, projects: seq<string>, secret: string, now: Instant, readable: bool, newMtime: Mtime,
      readableNow: bool)
    returns (r: Result<string, Error>, id: Option<Identity>)
    requires f.IsWhole() && IsUnknown(f, secret) && newMtime != 0 && newMtime !in f.disk.versions
    modifies f, f.disk
    ensures r == Err(SaveFailed) ==>
      id == if f.disk.file.Some? && (readable || !readableNow) then Some(Identity(TrimSpace(name), projects)) else None
  {
    hide Ledger, Strings.TrimSpace, HasBadChar;
    ghost var before := f.Reloaded(readable);
    r := f.Add(name, projects, secret, now, readable, false, newMtime);
    id := f.Resolve(secret, readableNow);
    if r == Err(SaveFailed) {
      FindAppended(before, Entry(TrimSpace(name), Hash(secret), projects, now), 0);
    }
  }

  /** The next save by any other process ends that, once the file is read again. */
  method NextSaveEndsIt(
      f: File, other: File, name: string, projects: seq<string>, otherSecret: string, now: Instant, newMtime: Mtime,
      secret: string)
    returns (r: Result<string, Error>, id: Option<Identity>)
    requires f != other && f.disk == other.disk && f.IsWhole() && other.IsWhole()
    requires newMtime != 0 && newMtime !in f.disk.versions && newMtime != f.mtime
    modifies f, other, f.disk
    ensures r.Ok? ==> id == Answer(Ledger(f.disk.log), f.static_, Hash(secret))
  {
    hide Ledger, Strings.TrimSpace, HasBadChar;
    r := other.Add(name, projects, otherSecret, now, true, true, newMtime);
    id := f.Resolve(secret, true);
  }

  /** A name whose revocation could not be saved is refused by the process all the same, under the same
      condition; otherwise the file answers as before. */
  method UnsavedRevocationHolds(
      f: File, name: string, readable: bool, newMtime: Mtime, secret: string, readableNow: bool)
    returns (r: Result<nat, Error>, id: Option<Identity>)
    requires f.IsWhole() && newMtime != 0 && newMtime !in f.disk.versions
    modifies f, f.entries, f.disk
    ensures r.Err? && f.disk.file.Some? && (readable || !readableNow) && id.Some? && id.value.user == name ==>
      Hash(secret) in f.static_ && id == Some(f.static_[Hash(secret)])
    ensures r.Err? && f.disk.file.Some? && !readable && readableNow ==>
      id == Answer(old(f.disk.Entries()), f.static_, Hash(secret))
  {
    hide Ledger, Ordering.Where;
    ghost var before := f.Reloaded(readable);
    r := f.Revoke(name, readable, false, newMtime);
    id := f.Resolve(secret, readableNow);
    RevokedIsNoAnswer(before, name, f.static_, Hash(secret));
  }

  // ---- several processes ----

  lemma {:induction false} FindAppended(entries: seq<Entry>, e: Entry, from: nat)
    requires from <= |entries| && forall d :: d in entries ==> d.hash != e.hash
    ensures FindHash(entries + [e], e.hash, from) == |entries|
    decreases |entries| - from
  {
    if from < |entries| {
      assert (entries + [e])[from] == entries[from];
      FindAppended(entries, e, from + 1);
    }
  }

  /** A token added by another process works at once: the server re-reads the file. */
  method AddedTokenWorks(
      cli: File, server: File, name: string, projects: seq<string>, secret: string, now: Instant, newMtime: Mtime)
    returns (r: Result<string, Error>, id: Option<Identity>)
    requires cli != server && cli.disk == server.disk && cli.Valid() && server.Valid()
    requires newMtime != 0 && newMtime !in cli.disk.versions
    requires forall e :: e in cli.disk.Entries() ==> e.hash != Hash(secret)
    modifies cli, server, cli.disk
    ensures r.Ok? ==> server.Valid() && id == Some(Identity(TrimSpace(name), projects))
  {
    hide Ledger, Strings.TrimSpace, HasBadChar;
    ghost var before := cli.disk.Entries();
    r := cli.Add(name, projects, secret, now, true, true, newMtime);
    id := None;
    if r.Ok? {
      id := server.Resolve(secret, true);
      FindAppended(before, Entry(TrimSpace(name), Hash(secret), projects, now), 0);
    }
  }

  /** A name revoked by another process is refused at once, whatever secret is presented. */
  method RevokedNameFails(cli: File, server: File, name: string, secret: string, newMtime: Mtime)
    returns (r: Result<nat, Error>, id: Option<Identity>)
    requires cli != server && cli.disk == server.disk && cli.entries != server.entries
    requires cli.Valid() && server.Valid()
    requires newMtime != 0 && newMtime !in cli.disk.versions
    modifies cli, cli.entries, server, cli.disk
    ensures r.Ok? && server.Valid()
    ensures id.Some? && id.value.user == name ==>
      Hash(secret) in server.static_ && id == Some(server.static_[Hash(secret)])
  {
    hide Ledger, Ordering.Where;
    ghost var before := cli.disk.Entries();
    r := cli.Revoke(name, true, true, newMtime);
    assert cli.disk.Entries() == Without(before, name) by {
      if r == Ok(0) {
        WhereAll(before, (e: Entry) => e.name != name);
      }
    }
    id := server.Resolve(secret, true);
    RevokedIsNoAnswer(before, name, server.static_, Hash(secret));
  }

  lemma RevokedIsNoAnswer(entries: seq<Entry>, name: string, static_: Tokens, h: Digest)
    ensures var r := Answer(Without(entries, name), static_, h);
      r.Some? && r.value.user == name ==> h in static_ && r == Some(static_[h])
  {
    var left := Without(entries, name);
    var i := FindHash(left, h, 0);
    assert i < |left| ==> left[i] in left;
  }
}
