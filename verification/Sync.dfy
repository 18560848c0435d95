/**
  Concurrent create, delete and sync requests.  Requests change the user table outside
  the sync mutex; only listing the users and replacing the three files is inside it.

  Every step of a request is one database statement, one file replacement or one
  lock operation, and steps of different requests may come in any order.
 */
module Sync {
  import opened Text
  import opened Export

  /** The user table: address to password hash. */
  type Table = map<string, string>

  ghost predicate IsListing(users: seq<User>, t: Table) {
    && (forall u :: u in users ==> u.email in t && t[u.email] == u.hash)
    && (forall e :: e in t ==> User(e, t[e]) in users)
    && (forall i, j :: 0 <= i < j < |users| ==> users[i] != users[j])
  }

  /** A listing of the other users, and one more. */
  lemma ListingMore(users: seq<User>, t: Table, e: string)
    requires e in t && IsListing(users, t - {e})
    ensures IsListing(users + [User(e, t[e])], t)
  {
    var more := users + [User(e, t[e])];
    assert User(e, t[e]) !in users;
    forall k | k in t ensures User(k, t[k]) in more {
      if k != e {
        assert User(k, (t - {e})[k]) in users;
      }
    }
  }

  lemma {:induction false} ListingExists(t: Table)
    ensures exists users :: IsListing(users, t)
    decreases |t|
  {
    if t == map[] {
      assert IsListing([], t);
    } else {
      var e :| e in t;
      ListingExists(t - {e});
      var users :| IsListing(users, t - {e});
      ListingMore(users, t, e);
    }
  }

  /** What listing the users of a table returns. */
  ghost function Listing(t: Table): (users: seq<User>)
    ensures IsListing(users, t)
  {
    ListingExists(t);
    var users :| IsListing(users, t);
    users
  }

  lemma {:induction false} DistinctCount(a: seq<User>, u: User)
    requires forall i, j :: 0 <= i < j < |a| ==> a[i] != a[j]
    ensures multiset(a)[u] == if u in a then 1 else 0
  {
    if a != [] {
      assert a == [a[0]] + a[1..];
      DistinctCount(a[1..], u);
    }
  }

  lemma SameMultiset(a: seq<User>, b: seq<User>)
    requires forall i, j :: 0 <= i < j < |a| ==> a[i] != a[j]
    requires forall i, j :: 0 <= i < j < |b| ==> b[i] != b[j]
    requires forall u :: u in a <==> u in b
    ensures multiset(a) == multiset(b)
  {
    forall u ensures multiset(a)[u] == multiset(b)[u] {
      DistinctCount(a, u);
      DistinctCount(b, u);
    }
  }

  /** The files do not depend on the order in which the database lists the users. */
  lemma AnyListing(users: seq<User>, t: Table, cfg: Config)
    requires IsListing(users, t)
    ensures Contents(users, cfg) == Contents(Listing(t), cfg)
  {
    forall u ensures u in users <==> u in Listing(t) {
    }
    SameMultiset(users, Listing(t));
    ContentsOfPermutation(users, Listing(t), cfg);
  }

  /** The service on its own, with no other request running. */
  class Service {
    var table: Table
    const disk: Disk
    const cfg: Config

    constructor (disk: Disk, cfg: Config)
      ensures table == map[] && this.disk == disk && this.cfg == cfg
    {
      table := map[];
      this.disk := disk;
      this.cfg := cfg;
    }

    method ListUsers() returns (users: seq<User>)
      ensures IsListing(users, table)
    {
      users := [];
      var rest := table.Keys;
      while rest != {}
        invariant rest <= table.Keys
        invariant forall u :: u in users ==> u.email in table && u.email !in rest && table[u.email] == u.hash
        invariant forall e :: e in table && e !in rest ==> User(e, table[e]) in users
        invariant forall i, j :: 0 <= i < j < |users| ==> users[i] != users[j]
        decreases |rest|
      {
        var e :| e in rest;
        users := users + [User(e, table[e])];
        rest := rest - {e};
      }
    }

    /** `listed`, `dirs` and `good` say how far the database and the file system let the sync get. */
    method SyncNow(listed: bool, dirs: bool, good: nat) returns (ok: bool)
      requires good <= 3
      modifies disk
      ensures ok <==> listed && dirs && good == 3 && Contents(Listing(table), cfg).Some?
      ensures ok ==> Contents(Listing(table), cfg) == Some(disk.files)
      ensures Contents(Listing(table), cfg).None? ==> disk.files == old(disk.files)
    {
      if !listed {
        return false;
      }
      var users := ListUsers();
      AnyListing(users, table, cfg);
      ok := disk.Export(users, cfg, dirs, good);
    }
  }

  // ----- requests -----

  datatype Op = Create(email: string, hash: string) | Delete(email: string) | SyncOnly

  datatype Request =
    | Start(op: Op)
    | ReadBack(email: string)
    | Waiting
    | Locked
    | Writing(snapshot: seq<User>, replaced: nat)
    | Finished(ok: bool)

  /**
    `holder` is the owner of the sync mutex.  The last two fields only record history:
    the request that changed the table last, and whether some request has failed
    after changing the table or inside a sync, with no sync reading the table since.
   */
  datatype State = State(
    table: Table, files: Files, holder: Option<nat>, requests: map<nat, Request>,
    last: Option<nat>, failed: bool)

  /** `ok` says whether the database statement or file replacement of the step succeeds. */
  datatype Event = Arrive(id: nat, op: Op) | Step(id: nat, ok: bool)

  function Replace(files: Files, new_: Files, k: nat): Files {
    if k == 0 then files.(dovecot := new_.dovecot)
    else if k == 1 then files.(mailboxes := new_.mailboxes)
    else files.(domains := new_.domains)
  }

  function End(s: State, id: nat, ok: bool): State {
    s.(requests := s.requests[id := Finished(ok)])
  }

  ghost function Next(s: State, e: Event, cfg: Config): State {
    match e
    case Arrive(id, op) =>
      if id in s.requests then s else s.(requests := s.requests[id := Start(op)])
    case Step(id, ok) =>
      if id !in s.requests then s
      else match s.requests[id]
        case Start(Create(email, hash)) =>
          if !ok then End(s, id, false)
          else s.(table := s.table[email := hash], requests := s.requests[id := ReadBack(email)], last := Some(id))
        case Start(Delete(email)) =>
          if !ok then End(s, id, false)
          else s.(table := s.table - {email}, requests := s.requests[id := Waiting], last := Some(id))
        case Start(SyncOnly) => s.(requests := s.requests[id := Waiting])
        case ReadBack(email) =>
          if !ok then End(s, id, false).(failed := true)
          else if email !in s.table then End(s, id, false)
          else s.(requests := s.requests[id := Waiting])
        case Waiting =>
          if s.holder.Some? then s
          else s.(requests := s.requests[id := Locked], holder := Some(id))
        case Locked =>
          if !ok then End(s, id, false).(holder := None, failed := true)
          else s.(requests := s.requests[id := Writing(Listing(s.table), 0)], failed := false)
        case Writing(snapshot, k) =>
          if !ok || Contents(snapshot, cfg).None? then End(s, id, false).(holder := None, failed := true)
          else
            var files := Replace(s.files, Contents(snapshot, cfg).value, k);
            if k < 2 then s.(files := files, requests := s.requests[id := Writing(snapshot, k + 1)])
            else End(s, id, true).(files := files, holder := None)
        case Finished(_) => s
  }

  ghost function Run(s: State, events: seq<Event>, cfg: Config): State
    decreases |events|
  {
    if events == [] then s else Run(Next(s, events[0], cfg), events[1..], cfg)
  }

  // ----- the invariant -----

  ghost predicate Agree(s: State, cfg: Config) {
    Contents(Listing(s.table), cfg) == Some(s.files)
  }

  /** The request that changed the table last is still to read it. */
  ghost predicate LastPending(s: State) {
    && s.last.Some? && s.last.value in s.requests
    && var r := s.requests[s.last.value]; r.ReadBack? || r.Waiting? || r.Locked?
  }

  predicate InSync(r: Request) {
    r.Locked? || r.Writing?
  }

  ghost predicate MutexInv(s: State) {
    && (s.holder.Some? ==> s.holder.value in s.requests && InSync(s.requests[s.holder.value]))
    && (forall id :: id in s.requests && InSync(s.requests[id]) ==> s.holder == Some(id))
  }

  ghost predicate IsWriting(s: State) {
    s.holder.Some? && s.holder.value in s.requests && s.requests[s.holder.value].Writing?
  }

  /** The file replaced first, and the one replaced second, already hold what the snapshot asks for. */
  ghost predicate PartWritten(s: State, r: Request, cfg: Config)
    requires r.Writing?
  {
    && r.replaced < 3
    && (r.replaced > 0 ==> Contents(r.snapshot, cfg).Some? && s.files.dovecot == Contents(r.snapshot, cfg).value.dovecot)
    && (r.replaced > 1 ==> s.files.mailboxes == Contents(r.snapshot, cfg).value.mailboxes)
  }

  ghost predicate Inv(s: State, cfg: Config) {
    && MutexInv(s)
    && (s.last.Some? && s.last.value in s.requests && s.requests[s.last.value].ReadBack? ==>
          s.requests[s.last.value].email in s.table)
    && (IsWriting(s) ==>
          var r := s.requests[s.holder.value];
          PartWritten(s, r, cfg) && (r.snapshot == Listing(s.table) || LastPending(s) || s.failed))
    && (IsWriting(s) || LastPending(s) || s.failed || Agree(s, cfg))
  }

  /** A request that changes the table is then the last to have done so, and is still to read it. */
  lemma ChangeKeepsInv(s: State, id: nat, table: Table, r: Request, cfg: Config)
    requires Inv(s, cfg) && id in s.requests && s.requests[id].Start?
    requires r.Waiting? || (r.ReadBack? && r.email in table)
    ensures Inv(s.(table := table, requests := s.requests[id := r], last := Some(id)), cfg)
  {
    var t := s.(table := table, requests := s.requests[id := r], last := Some(id));
    assert LastPending(t);
    assert MutexInv(t);
    assert s.holder != Some(id);
    if IsWriting(t) {
      assert IsWriting(s);
      assert PartWritten(s, s.requests[s.holder.value], cfg);
    }
  }

  lemma BeginKeepsInv(s: State, id: nat, ok: bool, cfg: Config)
    requires Inv(s, cfg) && id in s.requests && s.requests[id].Start?
    ensures Inv(Next(s, Step(id, ok), cfg), cfg)
  {
    var t := Next(s, Step(id, ok), cfg);
    if ok && !s.requests[id].op.SyncOnly? {
      ChangeKeepsInv(s, id, t.table, t.requests[id], cfg);
    } else {
      IdleKeepsInv(s, id, t.requests[id], cfg);
    }
  }

  /** A request that is not the last writer and not inside the sync may go on or end. */
  lemma IdleKeepsInv(s: State, id: nat, r: Request, cfg: Config)
    requires Inv(s, cfg) && id in s.requests && s.requests[id].Start? && (r.Waiting? || r.Finished?)
    ensures Inv(s.(requests := s.requests[id := r]), cfg)
  {
    var t := s.(requests := s.requests[id := r]);
    assert s.holder != Some(id);
    assert MutexInv(t);
    assert LastPending(s) ==> LastPending(t);
    assert IsWriting(s) <==> IsWriting(t);
  }

  /** A request that has read its row back goes on to wait for the mutex; it may be the last writer. */
  lemma GoesOnKeepsInv(s: State, id: nat, cfg: Config)
    requires Inv(s, cfg) && id in s.requests && s.requests[id].ReadBack?
    ensures Inv(s.(requests := s.requests[id := Waiting]), cfg)
  {
    var t := s.(requests := s.requests[id := Waiting]);
    assert s.holder != Some(id);
    assert LastPending(s) <==> LastPending(t);
    assert IsWriting(s) <==> IsWriting(t);
    assert MutexInv(t);
  }

  /** A failed read-back is on record. */
  lemma FailsKeepsInv(s: State, id: nat, cfg: Config)
    requires Inv(s, cfg) && id in s.requests && s.requests[id].ReadBack?
    ensures Inv(s.(requests := s.requests[id := Finished(false)], failed := true), cfg)
  {
    var t := s.(requests := s.requests[id := Finished(false)], failed := true);
    assert s.holder != Some(id);
    assert IsWriting(s) <==> IsWriting(t);
    assert MutexInv(t);
  }

  /** A row that is gone was deleted by a later writer, so this request was not the last. */
  lemma RowGoneKeepsInv(s: State, id: nat, cfg: Config)
    requires Inv(s, cfg) && id in s.requests && s.requests[id].ReadBack? && s.requests[id].email !in s.table
    ensures Inv(s.(requests := s.requests[id := Finished(false)]), cfg)
  {
    var t := s.(requests := s.requests[id := Finished(false)]);
    assert s.last != Some(id);
    assert s.holder != Some(id);
    assert LastPending(s) <==> LastPending(t);
    assert IsWriting(s) <==> IsWriting(t);
    assert MutexInv(t);
  }

  lemma ReadBackKeepsInv(s: State, id: nat, ok: bool, cfg: Config)
    requires Inv(s, cfg) && id in s.requests && s.requests[id].ReadBack?
    ensures Inv(Next(s, Step(id, ok), cfg), cfg)
  {
    if !ok {
      FailsKeepsInv(s, id, cfg);
    } else if s.requests[id].email !in s.table {
      RowGoneKeepsInv(s, id, cfg);
    } else {
      GoesOnKeepsInv(s, id, cfg);
    }
  }

  lemma WaitingKeepsInv(s: State, id: nat, ok: bool, cfg: Config)
    requires Inv(s, cfg) && id in s.requests && s.requests[id].Waiting?
    ensures Inv(Next(s, Step(id, ok), cfg), cfg)
  {
  }

  lemma LockedKeepsInv(s: State, id: nat, ok: bool, cfg: Config)
    requires Inv(s, cfg) && id in s.requests && s.requests[id].Locked?
    ensures Inv(Next(s, Step(id, ok), cfg), cfg)
  {
  }

  lemma WritingKeepsInv(s: State, id: nat, ok: bool, cfg: Config)
    requires Inv(s, cfg) && id in s.requests && s.requests[id].Writing?
    ensures Inv(Next(s, Step(id, ok), cfg), cfg)
  {
    assert s.holder == Some(id);
    var r := s.requests[id];
    var t := Next(s, Step(id, ok), cfg);
    assert PartWritten(s, r, cfg);
    if ok && Contents(r.snapshot, cfg).Some? {
      if r.replaced < 2 {
        assert PartWritten(t, t.requests[id], cfg);
      } else {
        assert t.files == Contents(r.snapshot, cfg).value;
      }
    }
  }

  lemma NextKeepsInv(s: State, e: Event, cfg: Config)
    requires Inv(s, cfg)
    ensures Inv(Next(s, e, cfg), cfg)
  {
    match e
    case Arrive(id, op) =>
    case Step(id, ok) =>
      if id in s.requests {
        match s.requests[id]
        case Start(_) => BeginKeepsInv(s, id, ok, cfg);
        case ReadBack(_) => ReadBackKeepsInv(s, id, ok, cfg);
        case Waiting => WaitingKeepsInv(s, id, ok, cfg);
        case Locked => LockedKeepsInv(s, id, ok, cfg);
        case Writing(_, _) => WritingKeepsInv(s, id, ok, cfg);
        case Finished(_) =>
      }
  }

  lemma {:induction false} RunKeepsInv(s: State, events: seq<Event>, cfg: Config)
    requires Inv(s, cfg)
    ensures Inv(Run(s, events, cfg), cfg)
    decreases |events|
  {
    if events != [] {
      NextKeepsInv(s, events[0], cfg);
      RunKeepsInv(Next(s, events[0], cfg), events[1..], cfg);
    }
  }

  /** No request has begun and not ended. */
  ghost predicate Quiet(s: State) {
    forall id :: id in s.requests ==> s.requests[id].Start? || s.requests[id].Finished?
  }

  ghost predicate Initial(s: State, cfg: Config) {
    s.requests == map[] && s.holder.None? && s.last.None? && (s.failed || Agree(s, cfg))
  }

  /**
    Whatever the interleaving: when no request is in flight and no sync or read-back has
    failed since the last sync that read the table, the files are those of the
    current user table.
   */
  lemma QuietFilesAgree(s: State, events: seq<Event>, cfg: Config, users: seq<User>)
    requires Initial(s, cfg)
    requires var t := Run(s, events, cfg); Quiet(t) && !t.failed && IsListing(users, t.table)
    ensures Contents(users, cfg) == Some(Run(s, events, cfg).files)
  {
    RunKeepsInv(s, events, cfg);
    AnyListing(users, Run(s, events, cfg).table, cfg);
  }

  // ----- runs in which nothing fails -----

  predicate GoodEvent(e: Event) {
    match e
    case Arrive(_, Create(email, _)) => Parts(email).Some?
    case Arrive(_, _) => true
    case Step(_, ok) => ok
  }

  ghost predicate GoodState(s: State) {
    && !s.failed
    && (forall e :: e in s.table ==> Parts(e).Some?)
    && (forall id :: id in s.requests && s.requests[id].Start? && s.requests[id].op.Create? ==> Parts(s.requests[id].op.email).Some?)
    && (forall id :: id in s.requests && s.requests[id].Writing? ==> AllValid(s.requests[id].snapshot))
  }

  lemma {:induction false} NothingFails(s: State, events: seq<Event>, cfg: Config)
    requires GoodState(s) && forall e :: e in events ==> GoodEvent(e)
    ensures GoodState(Run(s, events, cfg))
    decreases |events|
  {
    if events != [] {
      assert GoodEvent(events[0]);
      GoodNext(s, events[0], cfg);
      NothingFails(Next(s, events[0], cfg), events[1..], cfg);
    }
  }

  lemma GoodNext(s: State, e: Event, cfg: Config)
    requires GoodState(s) && GoodEvent(e)
    ensures GoodState(Next(s, e, cfg))
  {
  }

  /**
    If every statement and file replacement succeeds and every address has one at-sign,
    then at every quiet moment the files are those of the current table, although
    tables change while a sync is running.
   */
  lemma QuietFilesAgreeWithoutFailures(s: State, events: seq<Event>, cfg: Config, users: seq<User>)
    requires Initial(s, cfg) && GoodState(s) && forall e :: e in events ==> GoodEvent(e)
    requires Quiet(Run(s, events, cfg)) && IsListing(users, Run(s, events, cfg).table)
    ensures Contents(users, cfg) == Some(Run(s, events, cfg).files)
  {
    NothingFails(s, events, cfg);
    QuietFilesAgree(s, events, cfg, users);
  }

  /** At most one request is inside the sync at any time. */
  lemma OneSyncAtATime(s: State, events: seq<Event>, cfg: Config, a: nat, b: nat)
    requires Initial(s, cfg)
    requires var t := Run(s, events, cfg); a in t.requests && b in t.requests && InSync(t.requests[a]) && InSync(t.requests[b])
    ensures a == b
  {
    RunKeepsInv(s, events, cfg);
  }

  // ----- what the table holds -----

  function Lookup(t: Table, e: string): Option<string> {
    if e in t then Some(t[e]) else None
  }

  /** The creation or deletion that an event executes, if it is one. */
  ghost function Executed(s: State, e: Event): seq<Op> {
    if e.Step? && e.ok && e.id in s.requests && s.requests[e.id].Start? && !s.requests[e.id].op.SyncOnly?
    then [s.requests[e.id].op] else []
  }

  /** The creations and deletions that a run executes, in their order. */
  ghost function Changes(s: State, events: seq<Event>, cfg: Config): seq<Op>
    decreases |events|
  {
    if events == [] then [] else Executed(s, events[0]) + Changes(Next(s, events[0], cfg), events[1..], cfg)
  }

  /** What the last change of an address leaves for it. */
  function LeftBy(before: Option<string>, ops: seq<Op>, e: string): Option<string> {
    if ops == [] then before
    else
      match ops[|ops| - 1]
      case Create(email, hash) => if email == e then Some(hash) else LeftBy(before, ops[..|ops| - 1], e)
      case Delete(email) => if email == e then None else LeftBy(before, ops[..|ops| - 1], e)
      case SyncOnly => LeftBy(before, ops[..|ops| - 1], e)
  }

  lemma {:induction false} LeftByConcat(before: Option<string>, a: seq<Op>, b: seq<Op>, e: string)
    ensures LeftBy(before, a + b, e) == LeftBy(LeftBy(before, a, e), b, e)
  {
    if b == [] {
      assert a + b == a;
    } else {
      var n := |b| - 1;
      assert (a + b)[..|a| + n] == a + b[..n];
      LeftByConcat(before, a, b[..n], e);
    }
  }

  lemma NextLookup(s: State, event: Event, cfg: Config, e: string)
    ensures Lookup(Next(s, event, cfg).table, e) == LeftBy(Lookup(s.table, e), Executed(s, event), e)
  {
    if event.Step? && event.id in s.requests && s.requests[event.id].Start? {
      assert [s.requests[event.id].op][..0] == [];
    }
  }

  /** After any run an address has the password hash of its last executed creation, unless a deletion came after it. */
  lemma {:induction false} TableIsLastChange(s: State, events: seq<Event>, cfg: Config, e: string)
    ensures Lookup(Run(s, events, cfg).table, e) == LeftBy(Lookup(s.table, e), Changes(s, events, cfg), e)
    decreases |events|
  {
    if events != [] {
      var t := Next(s, events[0], cfg);
      NextLookup(s, events[0], cfg, e);
      TableIsLastChange(t, events[1..], cfg, e);
      LeftByConcat(Lookup(s.table, e), Executed(s, events[0]), Changes(t, events[1..], cfg), e);
    }
  }
}
