/**
  Looking up a user's mailbox by name and creating it if it is missing, as the LMTP
  server and the auto-route do it, with any number of callers racing.
 */
module FindOrCreate {
  import opened Text
  import opened Archive

  /** Which of the two functions a caller runs; they compare names slightly differently. */
  datatype Kind = Lmtp | AutoRoute

  predicate Matches(kind: Kind, b: Mailbox, name: string) {
    match kind
    case Lmtp => EqualFold(b.name, name)
    case AutoRoute => EqualFold(TrimSpace(b.name), TrimSpace(name))
  }

  function FirstMatch(kind: Kind, boxes: seq<Mailbox>, name: string): Option<nat> {
    if boxes == [] then None
    else if Matches(kind, boxes[0], name) then Some(boxes[0].id)
    else FirstMatch(kind, boxes[1..], name)
  }

  /** Where a caller is: each step but the last two is one database statement. */
  datatype Pc = Looking | Creating | LookingAgain | Done(id: nat) | Failed

  datatype Caller = Caller(kind: Kind, user: string, name: string, pc: Pc)

  function ResultOf(found: Option<nat>, otherwise: Pc): Pc {
    match found
    case Some(id) => Done(id)
    case None => otherwise
  }

  /** One statement of a caller; `up` says whether the database executes it. */
  function Advance(db: Db, c: Caller, up: bool): (Db, Caller) {
    match c.pc
    case Looking =>
      if !up then (db, c.(pc := Failed))
      else
        var found := FirstMatch(c.kind, ListMailboxes(db, c.user), c.name);
        (db, c.(pc := ResultOf(found, Creating)))
    case Creating =>
      if !up then (db, c.(pc := LookingAgain))
      else
        var (db', created) := CreateMailbox(db, c.user, c.name);
        (db', c.(pc := ResultOf(created, LookingAgain)))
    case LookingAgain =>
      if !up then (db, c.(pc := Failed))
      else
        var found := FirstMatch(c.kind, ListMailboxes(db, c.user), c.name);
        (db, c.(pc := ResultOf(found, Failed)))
    case Done(_) => (db, c)
    case Failed => (db, c)
  }

  /** A caller on its own, from its first statement to its result. */
  function Alone(db: Db, kind: Kind, user: string, name: string, up: (bool, bool, bool)): (Db, Pc) {
    var (db1, c1) := Advance(db, Caller(kind, user, name, Looking), up.0);
    var (db2, c2) := Advance(db1, c1, up.1);
    var (db3, c3) := Advance(db2, c2, up.2);
    (db3, c3.pc)
  }

  method FindMatch(kind: Kind, boxes: seq<Mailbox>, name: string) returns (r: Option<nat>)
    ensures r == FirstMatch(kind, boxes, name)
  {
    var i := 0;
    while i < |boxes|
      invariant i <= |boxes| && FirstMatch(kind, boxes, name) == FirstMatch(kind, boxes[i..], name)
    {
      if Matches(kind, boxes[i], name) {
        return Some(boxes[i].id);
      }
      i := i + 1;
    }
    r := None;
  }

  method FindOrCreateMailbox(archive: SQLStore, kind: Kind, user: string, name: string, up: (bool, bool, bool))
    returns (r: Pc)
    modifies archive
    ensures (archive.db, r) == Alone(old(archive.db), kind, user, name, up)
  {
    var boxes := archive.Mailboxes(user, up.0);
    if boxes.None? {
      return Failed;
    }
    var found := FindMatch(kind, boxes.value, name);
    if found.Some? {
      return Done(found.value);
    }
    var created := archive.NewMailbox(user, name, up.1);
    if created.Some? {
      return Done(created.value);
    }
    boxes := archive.Mailboxes(user, up.2);
    if boxes.None? {
      return Failed;
    }
    found := FindMatch(kind, boxes.value, name);
    r := ResultOf(found, Failed);
  }

  // ----- the auto-route -----

  datatype Route = Invalid | To(user: string, name: string)

  /** The address and mailbox name of a message, by its direction. */
  function RouteOf(direction: string, from: string, to: string, inbound: string, outbound: string, valid: string -> bool): Route {
    if direction != "inbound" && direction != "outbound" then Invalid
    else
      var user := Normal(if direction == "inbound" then to else from);
      var name := TrimSpace(if direction == "inbound" then inbound else outbound);
      if !valid(user) || name == "" then Invalid else To(user, name)
  }

  /** The mailbox of that user, whose name is that name up to letter case. */
  ghost predicate IsMailboxOf(db: Db, id: nat, user: string, name: string) {
    exists b :: b in db.boxes && b.id == id && b.user == user && EqualFold(b.name, name)
  }

  /**
    An inbound message goes to the mailbox of its recipient with the inbound name, an
    outbound one to that of its sender with the outbound name.  Another direction, an
    address that the parser rejects and a blank name fail before any statement.
   */
  method ResolveMailboxIdForAutoRoute(
    archive: SQLStore, direction: string, from: string, to: string, inbound: string, outbound: string,
    valid: string -> bool, up: (bool, bool, bool)) returns (r: Pc)
    modifies archive
    ensures ValidDb(old(archive.db)) && r.Done? && direction == "inbound" && Normal(to) != "" ==>
      IsMailboxOf(archive.db, r.id, Normal(to), TrimSpace(inbound))
    ensures ValidDb(old(archive.db)) && r.Done? && direction == "outbound" && Normal(from) != "" ==>
      IsMailboxOf(archive.db, r.id, Normal(from), TrimSpace(outbound))
    ensures ValidDb(old(archive.db)) && up == (true, true, true) ==>
      (r.Done? <==>
        || (direction == "inbound" && valid(Normal(to)) && TrimSpace(inbound) != "")
        || (direction == "outbound" && valid(Normal(from)) && TrimSpace(outbound) != ""))
    ensures direction != "inbound" && direction != "outbound" ==> archive.db == old(archive.db) && r == Failed
    ensures direction == "inbound" && (!valid(Normal(to)) || TrimSpace(inbound) == "") ==> archive.db == old(archive.db) && r == Failed
    ensures direction == "outbound" && (!valid(Normal(from)) || TrimSpace(outbound) == "") ==> archive.db == old(archive.db) && r == Failed
    ensures ValidDb(old(archive.db)) ==> ValidDb(archive.db) && Grows(old(archive.db), archive.db)
    ensures match RouteOf(direction, from, to, inbound, outbound, valid)
      case Invalid => archive.db == old(archive.db) && r == Failed
      case To(user, name) => (archive.db, r) == Alone(old(archive.db), AutoRoute, user, name, up)
  {
    var user: string, name: string;
    if direction == "inbound" {
      user, name := ToLower(TrimSpace(to)), TrimSpace(inbound);
    } else if direction == "outbound" {
      user, name := ToLower(TrimSpace(from)), TrimSpace(outbound);
    } else {
      return Failed;
    }
    if !valid(user) {
      return Failed;
    }
    if name == "" {
      return Failed;
    }
    NormalIdempotent(if direction == "inbound" then to else from);
    TrimmedFixed(if direction == "inbound" then inbound else outbound);
    ghost var before := archive.db;
    r := FindOrCreateMailbox(archive, AutoRoute, user, name, up);
    RouteFinds(before, user, name, up);
  }

  /** What the auto-route finds for a trimmed name and a normal address. */
  lemma RouteFinds(db: Db, user: string, name: string, up: (bool, bool, bool))
    requires TrimSpace(name) == name && Normal(user) == user
    ensures var (db', pc) := Alone(db, AutoRoute, user, name, up);
      ValidDb(db) ==>
        && ValidDb(db') && Grows(db, db')
        && (pc.Done? && user != "" ==> IsMailboxOf(db', pc.id, user, name))
        && (up == (true, true, true) ==> pc.Done?)
  {
    if ValidDb(db) {
      AloneGrows(db, AutoRoute, user, name, up);
      HealthyLookup(db, AutoRoute, user, name);
      BlankNormal(user);
      if user != "" {
        AloneFinds(db, AutoRoute, user, name, up);
      }
    }
  }

  // ----- what a caller does to the archive -----

  /** Rows are only added: everything that was there is there unchanged. */
  ghost predicate Grows(db: Db, db': Db) {
    && (forall b :: b in db.boxes ==> b in db'.boxes)
    && (forall id :: id in db.messages ==> id in db'.messages && db'.messages[id] == db.messages[id])
    && db.nextId <= db'.nextId
  }

  lemma CreateGrows(db: Db, user: string, name: string)
    requires ValidDb(db)
    ensures var db' := CreateMailbox(db, user, name).0; ValidDb(db') && Grows(db, db') && db'.messages == db.messages
  {
    CreateMailboxValid(db, user, name);
  }

  lemma AdvanceGrows(db: Db, c: Caller, up: bool)
    requires ValidDb(db)
    ensures var (db', c') := Advance(db, c, up);
      && ValidDb(db') && Grows(db, db') && db'.messages == db.messages
      && c'.user == c.user && c'.name == c.name && c'.kind == c.kind
  {
    if c.pc.Creating? && up {
      CreateGrows(db, c.user, c.name);
    } else {
      assert Advance(db, c, up).0 == db;
    }
  }

  lemma GrowsTransitive(a: Db, b: Db, c: Db)
    requires Grows(a, b) && Grows(b, c)
    ensures Grows(a, c)
  {
  }

  /** A caller that is done has found a mailbox of its user and name. */
  ghost predicate Found(db: Db, c: Caller) {
    c.pc.Done? ==> exists b :: b in db.boxes && b.id == c.pc.id && Wanted(b, Normal(c.user), c.name)
  }

  lemma AdvanceFinds(db: Db, c: Caller, up: bool)
    requires ValidDb(db) && TrimSpace(c.user) != "" && TrimSpace(c.name) == c.name && Found(db, c)
    ensures var (db', c') := Advance(db, c, up); Found(db', c')
  {
    if c.pc.Creating? {
      CreateMailboxValid(db, c.user, c.name);
    } else {
      LookupIs(db, c.kind, c.user, c.name);
    }
  }

  lemma AloneGrows(db: Db, kind: Kind, user: string, name: string, up: (bool, bool, bool))
    requires ValidDb(db)
    ensures var (db', pc) := Alone(db, kind, user, name, up); ValidDb(db') && Grows(db, db') && db'.messages == db.messages
  {
    var c0 := Caller(kind, user, name, Looking);
    var (db1, c1) := Advance(db, c0, up.0);
    var (db2, c2) := Advance(db1, c1, up.1);
    var (db3, c3) := Advance(db2, c2, up.2);
    AdvanceGrows(db, c0, up.0);
    AdvanceGrows(db1, c1, up.1);
    AdvanceGrows(db2, c2, up.2);
    GrowsTransitive(db, db1, db2);
    GrowsTransitive(db, db2, db3);
  }

  lemma AloneFinds(db: Db, kind: Kind, user: string, name: string, up: (bool, bool, bool))
    requires ValidDb(db) && TrimSpace(name) == name && TrimSpace(user) != ""
    ensures var (db', pc) := Alone(db, kind, user, name, up); Found(db', Caller(kind, user, name, pc))
  {
    var c0 := Caller(kind, user, name, Looking);
    var (db1, c1) := Advance(db, c0, up.0);
    var (db2, c2) := Advance(db1, c1, up.1);
    AdvanceGrows(db, c0, up.0);
    AdvanceFinds(db, c0, up.0);
    AdvanceGrows(db1, c1, up.1);
    AdvanceFinds(db1, c1, up.1);
    AdvanceGrows(db2, c2, up.2);
    AdvanceFinds(db2, c2, up.2);
  }

  lemma Listed(db: Db, user: string, b: Mailbox)
    requires ValidDb(db)
    ensures b in ListMailboxes(db, user) ==> b in db.boxes
    ensures b in db.boxes && b.user == Normal(user) ==> b in ListMailboxes(db, user)
  {
    if TrimSpace(user) != "" {
      ListingIs(db, user, b);
    }
  }

  /** If a lookup finds nothing, the creation after it succeeds. */
  lemma CreationSucceeds(db: Db, kind: Kind, user: string, name: string)
    requires ValidDb(db) && TrimSpace(name) == name
    requires FirstMatch(kind, ListMailboxes(db, user), name).None?
    ensures CreateMailbox(db, user, name).1.Some?
  {
    CreateMailboxValid(db, user, name);
    FirstMatchIs(kind, ListMailboxes(db, user), name);
    if HasBox(db, Normal(user), TrimSpace(name)) {
      var b :| b in db.boxes && b.user == Normal(user) && b.name == TrimSpace(name);
      Listed(db, user, b);
    }
  }

  /** If every statement is executed, a caller on its own ends with a mailbox. */
  lemma HealthyLookup(db: Db, kind: Kind, user: string, name: string)
    requires ValidDb(db) && TrimSpace(name) == name
    ensures var (db', pc) := Alone(db, kind, user, name, (true, true, true)); pc.Done? && HasBoxId(db', pc.id)
  {
    var found := FirstMatch(kind, ListMailboxes(db, user), name);
    if found.Some? {
      FirstMatchIs(kind, ListMailboxes(db, user), name);
      var b :| b in ListMailboxes(db, user) && b.id == found.value;
      Listed(db, user, b);
    } else {
      CreationSucceeds(db, kind, user, name);
      CreateMailboxValid(db, user, name);
      var (db', id) := CreateMailbox(db, user, name);
      assert Mailbox(id.value, Normal(user), TrimSpace(name)) in db'.boxes;
    }
  }

  // ----- many callers at once -----

  datatype State = State(db: Db, callers: map<nat, Caller>)

  /** Somebody starts a lookup, a caller takes its next step, or a mailbox is created directly. */
  datatype Event =
    | Begin(c: nat, kind: Kind, user: string, name: string)
    | Step(c: nat, up: bool)
    | Direct(user: string, name: string)

  function Next(s: State, e: Event): State {
    match e
    case Begin(c, kind, user, name) =>
      if c in s.callers then s else s.(callers := s.callers[c := Caller(kind, user, name, Looking)])
    case Step(c, up) =>
      if c !in s.callers then s
      else
        var (db, caller) := Advance(s.db, s.callers[c], up);
        State(db, s.callers[c := caller])
    case Direct(user, name) => s.(db := CreateMailbox(s.db, user, name).0)
  }

  function Run(s: State, events: seq<Event>): State
    decreases |events|
  {
    if events == [] then s else Run(Next(s, events[0]), events[1..])
  }

  // For one user `u` and one configured name `n`:

  /** A mailbox of the user that a lookup for the name would return. */
  predicate Wanted(b: Mailbox, u: string, n: string) {
    b.user == u && EqualFold(b.name, n)
  }

  /** The caller looks for that name of that user. */
  predicate Seeks(c: Caller, u: string, n: string) {
    Normal(c.user) == u && c.name == n
  }

  /** Other names do not clash with the configured one. */
  predicate Apart(user: string, name: string, u: string, n: string) {
    Normal(user) != u || !EqualFold(TrimSpace(name), n)
  }

  /** Mailboxes for the name come only from callers that use the configured spelling. */
  predicate Disciplined(e: Event, u: string, n: string) {
    match e
    case Begin(_, _, user, name) => (Normal(user) == u && name == n) || Apart(user, name, u, n)
    case Step(_, _) => true
    case Direct(user, name) => Apart(user, name, u, n)
  }

  ghost predicate Inv(s: State, u: string, n: string) {
    && ValidDb(s.db)
    && (forall b, b' :: b in s.db.boxes && b' in s.db.boxes && Wanted(b, u, n) && Wanted(b', u, n) ==> b == b')
    && (forall b :: b in s.db.boxes && Wanted(b, u, n) && b.name != n ==>
          forall c :: c in s.callers && Seeks(s.callers[c], u, n) ==> !s.callers[c].pc.Creating?)
    && (forall c :: c in s.callers ==> Seeks(s.callers[c], u, n) || Apart(s.callers[c].user, s.callers[c].name, u, n))
    && (forall c :: c in s.callers && Seeks(s.callers[c], u, n) && s.callers[c].pc.Done? ==>
          exists b :: b in s.db.boxes && Wanted(b, u, n) && b.id == s.callers[c].pc.id)
  }

  lemma {:induction false} FirstMatchIs(kind: Kind, boxes: seq<Mailbox>, name: string)
    ensures match FirstMatch(kind, boxes, name)
      case Some(id) => exists b :: b in boxes && Matches(kind, b, name) && b.id == id
      case None => forall b :: b in boxes ==> !Matches(kind, b, name)
  {
    if boxes != [] {
      FirstMatchIs(kind, boxes[1..], name);
      assert boxes == [boxes[0]] + boxes[1..];
    }
  }

  /**
    What a lookup for a non-blank user finds: one of that user's mailboxes of that name,
    if there is one.
   */
  lemma LookupIs(db: Db, kind: Kind, user: string, n: string)
    requires ValidDb(db) && TrimSpace(user) != "" && TrimSpace(n) == n
    ensures match FirstMatch(kind, ListMailboxes(db, user), n)
      case Some(id) => exists b :: b in db.boxes && Wanted(b, Normal(user), n) && b.id == id
      case None => forall b :: b in db.boxes ==> !Wanted(b, Normal(user), n)
  {
    var boxes := ListMailboxes(db, user);
    FirstMatchIs(kind, boxes, n);
    forall b ensures b in boxes <==> b in db.boxes && b.user == Normal(user) {
      ListingIs(db, user, b);
    }
  }

  lemma BlankNormal(user: string)
    ensures TrimSpace(user) == "" <==> Normal(user) == ""
  {
  }

  function Move(s: State, c: nat, pc: Pc): State
    requires c in s.callers
  {
    s.(callers := s.callers[c := s.callers[c].(pc := pc)])
  }

  /** A caller moves on without changing the tables. */
  lemma MoveKeepsInv(s: State, c: nat, pc: Pc, u: string, n: string)
    requires Inv(s, u, n) && c in s.callers
    requires Seeks(s.callers[c], u, n) && pc.Creating? ==> forall b :: b in s.db.boxes ==> !Wanted(b, u, n)
    requires Seeks(s.callers[c], u, n) && pc.Done? ==> exists b :: b in s.db.boxes && Wanted(b, u, n) && b.id == pc.id
    ensures Inv(Move(s, c, pc), u, n)
  {
  }

  lemma StepKeepsInv(s: State, c: nat, up: bool, u: string, n: string)
    requires Inv(s, u, n) && u != "" && TrimSpace(n) == n && c in s.callers
    ensures Inv(Next(s, Step(c, up)), u, n)
  {
    var caller := s.callers[c];
    if caller.pc.Creating? && up {
      CreateKeepsInv(s, c, u, n);
    } else if caller.pc.Done? || caller.pc.Failed? {
      assert Next(s, Step(c, up)).callers == s.callers;
    } else {
      BlankNormal(caller.user);
      if Seeks(caller, u, n) {
        LookupIs(s.db, caller.kind, caller.user, n);
      }
      var pc := Advance(s.db, caller, up).1.pc;
      MoveKeepsInv(s, c, pc, u, n);
      assert Next(s, Step(c, up)) == Move(s, c, pc);
    }
  }

  lemma CreateKeepsInv(s: State, c: nat, u: string, n: string)
    requires Inv(s, u, n) && u != "" && TrimSpace(n) == n && c in s.callers && s.callers[c].pc.Creating?
    ensures Inv(Next(s, Step(c, true)), u, n)
  {
    var caller := s.callers[c];
    CreateMailboxValid(s.db, caller.user, caller.name);
  }

  lemma NextKeepsInv(s: State, e: Event, u: string, n: string)
    requires Inv(s, u, n) && u != "" && TrimSpace(n) == n && Disciplined(e, u, n)
    ensures Inv(Next(s, e), u, n)
  {
    match e
    case Begin(_, _, _, _) =>
    case Step(c, up) =>
      if c in s.callers {
        StepKeepsInv(s, c, up, u, n);
      }
    case Direct(user, name) =>
      CreateMailboxValid(s.db, user, name);
  }

  lemma {:induction false} RunKeepsInv(s: State, events: seq<Event>, u: string, n: string)
    requires Inv(s, u, n) && u != "" && TrimSpace(n) == n && forall e :: e in events ==> Disciplined(e, u, n)
    ensures Inv(Run(s, events), u, n)
    decreases |events|
  {
    if events != [] {
      NextKeepsInv(s, events[0], u, n);
      RunKeepsInv(Next(s, events[0]), events[1..], u, n);
    }
  }

  /** A valid archive in which the user has at most one mailbox of the name, and no caller yet. */
  ghost predicate Initial(s: State, u: string, n: string) {
    && ValidDb(s.db) && s.callers == map[]
    && (forall b, b' :: b in s.db.boxes && b' in s.db.boxes && Wanted(b, u, n) && Wanted(b', u, n) ==> b == b')
  }

  /**
    Under every interleaving the user ends with at most one mailbox of the name, and all
    callers that return an identifier return that of this mailbox.
   */
  lemma OneMailbox(s: State, events: seq<Event>, u: string, n: string, c: nat, d: nat)
    requires Initial(s, u, n) && u != "" && TrimSpace(n) == n && forall e :: e in events ==> Disciplined(e, u, n)
    ensures var t := Run(s, events);
      forall b, b' :: b in t.db.boxes && b' in t.db.boxes && Wanted(b, u, n) && Wanted(b', u, n) ==> b == b'
    ensures var t := Run(s, events);
      c in t.callers && Seeks(t.callers[c], u, n) && t.callers[c].pc.Done? ==>
        exists b :: b in t.db.boxes && Wanted(b, u, n) && b.id == t.callers[c].pc.id
    ensures var t := Run(s, events);
      (c in t.callers && d in t.callers && Seeks(t.callers[c], u, n) && Seeks(t.callers[d], u, n)
       && t.callers[c].pc.Done? && t.callers[d].pc.Done?) ==> t.callers[c].pc.id == t.callers[d].pc.id
  {
    RunKeepsInv(s, events, u, n);
  }

  // ----- the second lookup settles the race -----

  /** No caller for the name fails, and one that lost the race has something to find. */
  ghost predicate Settled(s: State, u: string, n: string) {
    forall c :: c in s.callers && Seeks(s.callers[c], u, n) ==>
      && !s.callers[c].pc.Failed?
      && (s.callers[c].pc.LookingAgain? ==> exists b :: b in s.db.boxes && Wanted(b, u, n))
  }

  lemma MoveSettled(s: State, c: nat, pc: Pc, u: string, n: string)
    requires Settled(s, u, n) && c in s.callers
    requires Seeks(s.callers[c], u, n) ==> !pc.Failed?
    requires Seeks(s.callers[c], u, n) && pc.LookingAgain? ==> exists b :: b in s.db.boxes && Wanted(b, u, n)
    ensures Settled(Move(s, c, pc), u, n)
  {
  }

  lemma MoreBoxesSettled(s: State, db: Db, u: string, n: string)
    requires Settled(s, u, n) && forall b :: b in s.db.boxes ==> b in db.boxes
    ensures Settled(s.(db := db), u, n)
  {
  }

  lemma CreateSettled(s: State, c: nat, u: string, n: string)
    requires Inv(s, u, n) && Settled(s, u, n) && TrimSpace(n) == n && c in s.callers && s.callers[c].pc.Creating?
    ensures Settled(Next(s, Step(c, true)), u, n)
  {
    var caller := s.callers[c];
    CreateMailboxValid(s.db, caller.user, caller.name);
    var (db, created) := CreateMailbox(s.db, caller.user, caller.name);
    MoreBoxesSettled(s, db, u, n);
    MoveSettled(s.(db := db), c, ResultOf(created, LookingAgain), u, n);
    assert Next(s, Step(c, true)) == Move(s.(db := db), c, ResultOf(created, LookingAgain));
  }

  lemma NextSettled(s: State, e: Event, u: string, n: string)
    requires Inv(s, u, n) && Settled(s, u, n) && u != "" && TrimSpace(n) == n && Disciplined(e, u, n)
    requires e.Step? ==> e.up
    ensures Settled(Next(s, e), u, n)
  {
    match e
    case Begin(_, _, _, _) =>
    case Step(c, up) =>
      if c in s.callers {
        var caller := s.callers[c];
        if caller.pc.Creating? {
          CreateSettled(s, c, u, n);
        } else if caller.pc.Done? || caller.pc.Failed? {
          assert Next(s, e).callers == s.callers;
        } else {
          BlankNormal(caller.user);
          if Seeks(caller, u, n) {
            LookupIs(s.db, caller.kind, caller.user, n);
          }
          var pc := Advance(s.db, caller, up).1.pc;
          MoveSettled(s, c, pc, u, n);
          assert Next(s, e) == Move(s, c, pc);
        }
      }
    case Direct(user, name) =>
      CreateMailboxValid(s.db, user, name);
      MoreBoxesSettled(s, CreateMailbox(s.db, user, name).0, u, n);
  }

  /** If the database executes every statement, no caller ever fails: losers of the race find the winner's mailbox. */
  lemma {:induction false} NobodyFails(s: State, events: seq<Event>, u: string, n: string)
    requires Inv(s, u, n) && Settled(s, u, n) && u != "" && TrimSpace(n) == n
    requires forall e :: e in events ==> Disciplined(e, u, n) && (e.Step? ==> e.up)
    ensures Settled(Run(s, events), u, n)
    decreases |events|
  {
    if events != [] {
      assert events[0] in events;
      NextKeepsInv(s, events[0], u, n);
      NextSettled(s, events[0], u, n);
      NobodyFails(Next(s, events[0]), events[1..], u, n);
    }
  }

  // ----- the address must not be blank -----

  /** In every valid archive, what a lookup returns is a mailbox of the user. */
  ghost predicate FindsOwn(kind: Kind, user: string, n: string) {
    forall db :: ValidDb(db) ==> OwnResult(db, kind, user, n)
  }

  ghost predicate OwnResult(db: Db, kind: Kind, user: string, n: string) {
    match FirstMatch(kind, ListMailboxes(db, user), n)
    case Some(id) => exists b :: b in db.boxes && b.id == id && b.user == Normal(user)
    case None => true
  }

  lemma NonBlankFindsOwn(db: Db, kind: Kind, user: string, n: string)
    requires ValidDb(db) && TrimSpace(user) != ""
    ensures OwnResult(db, kind, user, n)
  {
    var boxes := ListMailboxes(db, user);
    FirstMatchIs(kind, boxes, n);
    forall b ensures b in boxes <==> b in db.boxes && b.user == Normal(user) {
      ListingIs(db, user, b);
    }
  }

  /** Folding letters keeps white space, so only a trimmed name is equal to a trimmed one. */
  lemma FoldTrimmed(a: string, n: string)
    requires TrimSpace(a) == a && EqualFold(a, n)
    ensures TrimSpace(n) == n
  {
    TrimSpaceTrims(a);
    var x, y := ToLower(a), ToLower(n);
    assert |a| == |n|;
    if n != "" {
      assert x[0] == y[0] && x[|a| - 1] == y[|a| - 1];
    }
  }

  /** A name with outer white space, which the LMTP lookup compares as it is, matches no stored mailbox. */
  lemma UntrimmedFindsNothing(db: Db, user: string, n: string)
    requires ValidDb(db) && TrimSpace(n) != n && TrimSpace(user) == ""
    ensures FirstMatch(Lmtp, ListMailboxes(db, user), n) == None
  {
    FirstMatchIs(Lmtp, db.boxes, n);
    forall b | b in db.boxes ensures !Matches(Lmtp, b, n) {
      if Matches(Lmtp, b, n) {
        FoldTrimmed(b.name, n);
      }
    }
  }

  lemma BlankFindsOther(kind: Kind, user: string, n: string) returns (db: Db)
    requires TrimSpace(user) == "" && (kind.AutoRoute? || TrimSpace(n) == n)
    ensures ValidDb(db) && !OwnResult(db, kind, user, n)
  {
    var b := Mailbox(0, "a", TrimSpace(n));
    db := Db([b], map[], 1);
    LetterIsNormal();
    TrimmedFixed(n);
    assert db.boxes[0] == b && forall c :: c in db.boxes ==> c == b;
    assert FirstMatch(kind, ListMailboxes(db, user), n) == Some(0);
    assert Normal(user) == "";
  }

  /**
    Lookups find only the user's own mailboxes, in every archive, if and only if the
    address is not blank (or the name is one that can match nothing at all).
   */
  lemma FindsOwnIff(kind: Kind, user: string, n: string)
    ensures FindsOwn(kind, user, n) <==> TrimSpace(user) != "" || (kind.Lmtp? && TrimSpace(n) != n)
  {
    if TrimSpace(user) != "" {
      forall db | ValidDb(db) ensures OwnResult(db, kind, user, n) {
        NonBlankFindsOwn(db, kind, user, n);
      }
    } else if kind.Lmtp? && TrimSpace(n) != n {
      forall db | ValidDb(db) ensures OwnResult(db, kind, user, n) {
        UntrimmedFindsNothing(db, user, n);
      }
    } else {
      var db := BlankFindsOther(kind, user, n);
    }
  }

  lemma LetterIsNormal()
    ensures Normal("a") == "a"
  {
    assert TrimLeft("a") == "a" && TrimRight("a") == "a";
    assert ToLower("a") == "a";
  }

  lemma {:induction false} FirstMatchFirst(kind: Kind, boxes: seq<Mailbox>, name: string, i: nat)
    requires i < |boxes| && Matches(kind, boxes[i], name)
    requires forall j :: 0 <= j < i ==> !Matches(kind, boxes[j], name)
    ensures FirstMatch(kind, boxes, name) == Some(boxes[i].id)
  {
    if i > 0 {
      assert !Matches(kind, boxes[0], name);
      FirstMatchFirst(kind, boxes[1..], name, i - 1);
    }
  }

  lemma LeastMatch(kind: Kind, boxes: seq<Mailbox>, name: string) returns (i: nat)
    requires exists b :: b in boxes && Matches(kind, b, name)
    ensures i < |boxes| && Matches(kind, boxes[i], name)
    ensures forall j :: 0 <= j < i ==> !Matches(kind, boxes[j], name)
  {
    i := 0;
    while !Matches(kind, boxes[i], name)
      invariant i < |boxes| && forall j :: 0 <= j < i ==> !Matches(kind, boxes[j], name)
      invariant exists j :: i <= j < |boxes| && Matches(kind, boxes[j], name)
      decreases |boxes| - i
    {
      i := i + 1;
    }
  }

  lemma EmptyUserFirst(db: Db, i: nat, j: nat)
    requires ValidDb(db) && i < |db.boxes| && j < |db.boxes| && db.boxes[j].user == "" && db.boxes[i].user != ""
    ensures j < i
  {
  }

  /**
    In a given archive, a lookup with a blank address finds somebody else's mailbox if
    and only if there is a matching one, and none is stored under the empty address,
    which sorts before all others.
   */
  lemma BlankFindsForeignIff(db: Db, kind: Kind, user: string, n: string)
    requires ValidDb(db) && TrimSpace(user) == ""
    ensures !OwnResult(db, kind, user, n) <==>
      (exists b :: b in db.boxes && Matches(kind, b, n)) && (forall b :: b in db.boxes && Matches(kind, b, n) ==> b.user != "")
  {
    FirstMatchIs(kind, db.boxes, n);
    if exists b :: b in db.boxes && Matches(kind, b, n) {
      var i := LeastMatch(kind, db.boxes, n);
      FirstMatchFirst(kind, db.boxes, n, i);
      assert db.boxes[i] in db.boxes;
      if db.boxes[i].user != "" {
        forall b | b in db.boxes && Matches(kind, b, n) ensures b.user != "" {
          var j :| 0 <= j < |db.boxes| && db.boxes[j] == b;
          if b.user == "" {
            EmptyUserFirst(db, i, j);
          }
        }
      }
    }
  }

  // ----- one spelling of the name -----

  ghost predicate AtMostOne(db: Db, u: string, n: string) {
    forall b, b' :: b in db.boxes && b' in db.boxes && Wanted(b, u, n) && Wanted(b', u, n) ==> b == b'
  }

  /** A creation that leaves a second mailbox: the same name, folded, as an existing one that is spelled otherwise. */
  predicate Splits(db: Db, user: string, name: string, u: string, n: string) {
    !Apart(user, name, u, n) && exists b :: b in db.boxes && Wanted(b, u, n) && b.name != TrimSpace(name)
  }

  /** One creation keeps the user at one mailbox of the name if and only if it does not split. */
  lemma CreateKeepsOneIff(db: Db, user: string, name: string, u: string, n: string)
    requires ValidDb(db) && AtMostOne(db, u, n)
    ensures AtMostOne(CreateMailbox(db, user, name).0, u, n) <==> !Splits(db, user, name, u, n)
  {
    CreateMailboxValid(db, user, name);
    var (db', id) := CreateMailbox(db, user, name);
    if Splits(db, user, name, u, n) {
      var b :| b in db.boxes && Wanted(b, u, n) && b.name != TrimSpace(name);
      assert id.Some? by {
        if HasBox(db, Normal(user), TrimSpace(name)) {
          var c :| c in db.boxes && c.user == Normal(user) && c.name == TrimSpace(name);
          assert Wanted(c, u, n);
        }
      }
      var c := Mailbox(id.value, Normal(user), TrimSpace(name));
      assert c in db'.boxes && b in db'.boxes && Wanted(c, u, n) && b != c;
    }
  }

  /** The creation that an event executes, if it executes one. */
  predicate EventSplits(s: State, e: Event, u: string, n: string) {
    match e
    case Begin(_, _, _, _) => false
    case Step(c, up) => c in s.callers && s.callers[c].pc.Creating? && up && Splits(s.db, s.callers[c].user, s.callers[c].name, u, n)
    case Direct(user, name) => Splits(s.db, user, name, u, n)
  }

  lemma NextKeepsOneIff(s: State, e: Event, u: string, n: string)
    requires ValidDb(s.db) && AtMostOne(s.db, u, n)
    ensures AtMostOne(Next(s, e).db, u, n) <==> !EventSplits(s, e, u, n)
  {
    match e
    case Begin(_, _, _, _) =>
    case Step(c, up) =>
      if c in s.callers && s.callers[c].pc.Creating? && up {
        CreateKeepsOneIff(s.db, s.callers[c].user, s.callers[c].name, u, n);
      }
    case Direct(user, name) => CreateKeepsOneIff(s.db, user, name, u, n);
  }

  lemma NextValid(s: State, e: Event)
    requires ValidDb(s.db)
    ensures ValidDb(Next(s, e).db) && forall b :: b in s.db.boxes ==> b in Next(s, e).db.boxes
  {
    match e
    case Begin(_, _, _, _) =>
    case Step(c, up) =>
      if c in s.callers && s.callers[c].pc.Creating? && up {
        CreateMailboxValid(s.db, s.callers[c].user, s.callers[c].name);
      }
    case Direct(user, name) => CreateMailboxValid(s.db, user, name);
  }

  lemma {:induction false} TwoStayTwo(s: State, events: seq<Event>, u: string, n: string)
    requires ValidDb(s.db) && !AtMostOne(s.db, u, n)
    ensures !AtMostOne(Run(s, events).db, u, n)
    decreases |events|
  {
    if events != [] {
      NextValid(s, events[0]);
      TwoStayTwo(Next(s, events[0]), events[1..], u, n);
    }
  }

  /** Some event of the run splits, in the state that it meets. */
  predicate RunSplits(s: State, events: seq<Event>, u: string, n: string)
    decreases |events|
  {
    events != [] && (EventSplits(s, events[0], u, n) || RunSplits(Next(s, events[0]), events[1..], u, n))
  }

  /**
    Whatever callers and direct creations do, the user ends with at most one mailbox of
    the name if and only if no creation on the way met an existing one that is spelled
    otherwise.
   */
  lemma {:induction false} RunKeepsOneIff(s: State, events: seq<Event>, u: string, n: string)
    requires ValidDb(s.db) && AtMostOne(s.db, u, n)
    ensures AtMostOne(Run(s, events).db, u, n) <==> !RunSplits(s, events, u, n)
    decreases |events|
  {
    if events != [] {
      var t := Next(s, events[0]);
      NextKeepsOneIff(s, events[0], u, n);
      NextValid(s, events[0]);
      if EventSplits(s, events[0], u, n) {
        TwoStayTwo(t, events[1..], u, n);
      } else {
        RunKeepsOneIff(t, events[1..], u, n);
      }
    }
  }

  /**
    A direct creation with another spelling, between a lookup and its creation, leaves
    two matching mailboxes.  The unique index must tell letter case apart for this.
   */
  lemma OtherSpellingSplits(u: string)
    requires Normal(u) == u && u != ""
    ensures var s := State(EMPTY, map[]);
      var t := Run(s, [Begin(0, Lmtp, u, "a"), Step(0, true), Direct(u, "A"), Step(0, true)]);
      exists b, b' :: b in t.db.boxes && b' in t.db.boxes && b != b' && Wanted(b, u, "a") && Wanted(b', u, "a")
  {
    BlankNormal(u);
    var db1 := CreateMailbox(EMPTY, u, "A").0;
    var b, b' := Mailbox(0, u, "A"), Mailbox(1, u, "a");
    assert TrimLeft("A") == "A" && TrimRight("A") == "A" && TrimLeft("a") == "a" && TrimRight("a") == "a";
    assert db1.boxes == [b];
    assert !HasBox(db1, u, "a");
    var db2 := CreateMailbox(db1, u, "a").0;
    InsertBoxIn([b], b', b);
    InsertBoxIn([b], b', b');
    assert ToLower("A") == "a" == ToLower("a");
    var s0 := State(EMPTY, map[]);
    var e0, e1, e2, e3 := Begin(0, Lmtp, u, "a"), Step(0, true), Direct(u, "A"), Step(0, true);
    var s1 := Next(s0, e0);
    var s2 := Next(s1, e1);
    var s3 := Next(s2, e2);
    var s4 := Next(s3, e3);
    assert ListMailboxes(EMPTY, u) == [];
    assert s2.callers[0].pc == Creating;
    assert s3.db == db1;
    assert s4.db == db2;
    var t := [e0, e1, e2, e3];
    assert t[1..] == [e1, e2, e3] && [e1, e2, e3][1..] == [e2, e3] && [e2, e3][1..] == [e3] && [e3][1..] == [];
    assert Run(s0, t) == Run(s1, [e1, e2, e3]) == Run(s2, [e2, e3]) == Run(s3, [e3]) == Run(s4, []) == s4;
    assert b in s4.db.boxes && b' in s4.db.boxes && b != b' && Wanted(b, u, "a") && Wanted(b', u, "a");
  }
}
