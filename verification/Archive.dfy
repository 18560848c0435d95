/**
  The mail archive: a table of mailboxes with a unique index on user and name, and a
  table of messages that refer to mailboxes.

  Identifiers stand for fresh UUIDs.  Every statement takes a flag `up` that says
  whether the database executes it.
 */
module Archive {
  import opened Text

  datatype Mailbox = Mailbox(id: nat, user: string, name: string)

  datatype Message = Message(
    id: nat, mailbox: nat, direction: string, from: string, to: string, subject: string,
    raw: string, text: string, size: nat, receivedAt: int)

  /** `boxes` is kept in the order of the mailbox listing: by user, then by name. */
  datatype Db = Db(boxes: seq<Mailbox>, messages: map<nat, Message>, nextId: nat)

  const EMPTY := Db([], map[], 0)

  // ----- mailboxes -----

  predicate BoxLess(a: Mailbox, b: Mailbox) {
    Less(a.user, b.user) || (a.user == b.user && Less(a.name, b.name))
  }

  predicate SameKey(a: Mailbox, b: Mailbox) {
    a.user == b.user && a.name == b.name
  }

  function InsertBox(boxes: seq<Mailbox>, b: Mailbox): seq<Mailbox> {
    if boxes == [] || BoxLess(b, boxes[0]) then [b] + boxes
    else [boxes[0]] + InsertBox(boxes[1..], b)
  }

  predicate HasBox(db: Db, user: string, name: string) {
    exists b :: b in db.boxes && b.user == user && b.name == name
  }

  /** Inserting fails when the unique index already holds the user and name. */
  function CreateMailbox(db: Db, user: string, name: string): (Db, Option<nat>) {
    var b := Mailbox(db.nextId, Normal(user), TrimSpace(name));
    if HasBox(db, b.user, b.name) then (db, None)
    else (db.(boxes := InsertBox(db.boxes, b), nextId := db.nextId + 1), Some(b.id))
  }

  function OfUser(boxes: seq<Mailbox>, user: string): seq<Mailbox> {
    if boxes == [] then []
    else (if boxes[0].user == user then [boxes[0]] else []) + OfUser(boxes[1..], user)
  }

  /** A blank address lists the mailboxes of every user. */
  function ListMailboxes(db: Db, user: string): seq<Mailbox> {
    if TrimSpace(user) == "" then db.boxes else OfUser(db.boxes, Normal(user))
  }

  // ----- messages -----

  predicate HasBoxId(db: Db, id: nat) {
    exists b :: b in db.boxes && b.id == id
  }

  /** Inserting fails when no mailbox has the given identifier. */
  function CreateMessage(db: Db, m: Message): (Db, Option<nat>) {
    if !HasBoxId(db, m.mailbox) then (db, None)
    else
      var stored := m.(id := db.nextId, direction := Normal(m.direction), from := TrimSpace(m.from),
                       to := TrimSpace(m.to), subject := TrimSpace(m.subject));
      (db.(messages := db.messages[db.nextId := stored], nextId := db.nextId + 1), Some(db.nextId))
  }

  /** A stored message carries what it was given, with outer white space removed from its addresses and subject. */
  predicate IsStored(stored: Message, id: nat, m: Message) {
    && stored.id == id && stored.mailbox == m.mailbox && stored.raw == m.raw && stored.text == m.text
    && stored.size == m.size && stored.receivedAt == m.receivedAt && stored.direction == Normal(m.direction)
    && stored.from == TrimSpace(m.from) && stored.to == TrimSpace(m.to) && stored.subject == TrimSpace(m.subject)
  }

  function DeleteMessage(db: Db, id: nat): Db {
    db.(messages := db.messages - {id})
  }

  function Limit(limit: int): nat {
    if limit < 1 then 100 else if limit > 1000 then 1000 else limit
  }

  predicate InBox(db: Db, m: Message, box: nat) {
    m.id in db.messages && db.messages[m.id] == m && m.mailbox == box
  }

  predicate Distinct(ms: seq<Message>) {
    forall i, j :: 0 <= i < j < |ms| ==> ms[i] != ms[j]
  }

  predicate NewestFirst(ms: seq<Message>) {
    forall i, j :: 0 <= i < j < |ms| ==> ms[i].receivedAt >= ms[j].receivedAt
  }

  /**
    What a listing of a mailbox may return: newest first, and messages are left out
    only when the limit is full of messages at least as new.  The order of messages
    received at the same time is up to the database.
   */
  ghost predicate IsPage(db: Db, box: nat, limit: nat, page: seq<Message>) {
    && Distinct(page) && NewestFirst(page) && |page| <= limit
    && (forall m :: m in page ==> InBox(db, m, box))
    && (forall m :: InBox(db, m, box) && m !in page ==>
          |page| == limit && forall p :: p in page ==> p.receivedAt >= m.receivedAt)
  }

  // ----- invariant -----

  predicate SortedBoxes(boxes: seq<Mailbox>) {
    forall i, j :: 0 <= i < j < |boxes| ==> BoxLess(boxes[i], boxes[j])
  }

  ghost predicate ValidDb(db: Db) {
    && SortedBoxes(db.boxes)
    && (forall b :: b in db.boxes ==> b.id < db.nextId && Normal(b.user) == b.user && TrimSpace(b.name) == b.name)
    && (forall b, c :: b in db.boxes && c in db.boxes && b.id == c.id ==> b == c)
    && (forall id :: id in db.messages ==> id < db.nextId && db.messages[id].id == id && HasBoxId(db, db.messages[id].mailbox))
  }

  lemma {:induction false} InsertBoxIn(boxes: seq<Mailbox>, b: Mailbox, c: Mailbox)
    ensures c in InsertBox(boxes, b) <==> c == b || c in boxes
  {
    if boxes != [] && !BoxLess(b, boxes[0]) {
      InsertBoxIn(boxes[1..], b, c);
      assert boxes == [boxes[0]] + boxes[1..];
    }
  }

  lemma BoxLessTransitive(a: Mailbox, b: Mailbox, c: Mailbox)
    requires BoxLess(a, b) && BoxLess(b, c)
    ensures BoxLess(a, c)
  {
    if Less(a.user, b.user) && Less(b.user, c.user) {
      LessTransitive(a.user, b.user, c.user);
    } else if a.user == b.user && b.user == c.user {
      LessTransitive(a.name, b.name, c.name);
    }
  }

  lemma BoxLessTotal(a: Mailbox, b: Mailbox)
    ensures SameKey(a, b) || BoxLess(a, b) || BoxLess(b, a)
  {
    LessTotal(a.user, b.user);
    LessTotal(a.name, b.name);
  }

  lemma {:induction false} InsertBoxSorted(boxes: seq<Mailbox>, b: Mailbox)
    requires SortedBoxes(boxes) && forall c :: c in boxes ==> !SameKey(b, c)
    ensures SortedBoxes(InsertBox(boxes, b))
  {
    if boxes == [] {
    } else if BoxLess(b, boxes[0]) {
      forall j | 0 <= j < |boxes| ensures BoxLess(b, boxes[j]) {
        if j > 0 {
          BoxLessTransitive(b, boxes[0], boxes[j]);
        }
      }
    } else {
      assert boxes[0] in boxes;
      BoxLessTotal(b, boxes[0]);
      InsertBoxSorted(boxes[1..], b);
      var r := InsertBox(boxes[1..], b);
      forall j | 0 <= j < |r| ensures BoxLess(boxes[0], r[j]) {
        InsertBoxIn(boxes[1..], b, r[j]);
        assert r[j] in r;
      }
    }
  }

  lemma TrimmedFixed(s: string)
    ensures TrimSpace(TrimSpace(s)) == TrimSpace(s)
  {
    TrimSpaceTrims(s);
  }

  /** Inserting keeps the tables valid: keys stay unique and the listing order is kept. */
  lemma CreateMailboxValid(db: Db, user: string, name: string)
    requires ValidDb(db)
    ensures var (db', r) := CreateMailbox(db, user, name);
      && ValidDb(db')
      && (r.None? <==> HasBox(db, Normal(user), TrimSpace(name)))
      && (r.None? ==> db' == db)
      && (r.Some? ==> db'.messages == db.messages)
      && (r.Some? ==> forall c :: c in db'.boxes <==> c == Mailbox(r.value, Normal(user), TrimSpace(name)) || c in db.boxes)
  {
    var b := Mailbox(db.nextId, Normal(user), TrimSpace(name));
    NormalIdempotent(user);
    TrimmedFixed(name);
    if !HasBox(db, b.user, b.name) {
      InsertBoxSorted(db.boxes, b);
      forall c ensures c in InsertBox(db.boxes, b) <==> c == b || c in db.boxes {
        InsertBoxIn(db.boxes, b, c);
      }
      var db' := CreateMailbox(db, user, name).0;
      forall id | id in db.messages ensures HasBoxId(db', db.messages[id].mailbox) {
        var c :| c in db.boxes && c.id == db.messages[id].mailbox;
        assert c in db'.boxes;
      }
    }
  }

  lemma {:induction false} CreateMessageValid(db: Db, m: Message)
    requires ValidDb(db)
    ensures ValidDb(CreateMessage(db, m).0)
  {
    var db' := CreateMessage(db, m).0;
    assert db'.boxes == db.boxes;
    forall id | id in db'.messages ensures HasBoxId(db', db'.messages[id].mailbox) {
      assert HasBoxId(db, db'.messages[id].mailbox);
    }
  }

  lemma DeleteMessageValid(db: Db, id: nat)
    requires ValidDb(db)
    ensures ValidDb(DeleteMessage(db, id))
  {
    var db' := DeleteMessage(db, id);
    forall k | k in db'.messages ensures HasBoxId(db', db'.messages[k].mailbox) {
      assert HasBoxId(db, db.messages[k].mailbox);
    }
  }

  lemma {:induction false} OfUserIn(boxes: seq<Mailbox>, user: string, b: Mailbox)
    ensures b in OfUser(boxes, user) <==> b in boxes && b.user == user
  {
    if boxes != [] {
      OfUserIn(boxes[1..], user, b);
      assert boxes == [boxes[0]] + boxes[1..];
    }
  }

  lemma {:induction false} OfUserSorted(boxes: seq<Mailbox>, user: string)
    requires SortedBoxes(boxes)
    ensures SortedBoxes(OfUser(boxes, user))
  {
    if boxes != [] {
      OfUserSorted(boxes[1..], user);
      var r := OfUser(boxes[1..], user);
      forall j | 0 <= j < |r| ensures BoxLess(boxes[0], r[j]) {
        OfUserIn(boxes[1..], user, r[j]);
        assert r[j] in r;
      }
    }
  }

  /** A listing holds exactly the mailboxes of the user, each once, ordered by name. */
  lemma ListingIs(db: Db, user: string, b: Mailbox)
    requires ValidDb(db) && TrimSpace(user) != ""
    ensures b in ListMailboxes(db, user) <==> b in db.boxes && b.user == Normal(user)
    ensures SortedBoxes(ListMailboxes(db, user))
  {
    OfUserIn(db.boxes, Normal(user), b);
    OfUserSorted(db.boxes, Normal(user));
  }

  // ----- the store -----

  class SQLStore {
    var db: Db

    constructor ()
      ensures db == EMPTY
    {
      db := EMPTY;
    }

    method NewMailbox(user: string, name: string, up: bool) returns (r: Option<nat>)
      modifies this
      ensures if up then (db, r) == CreateMailbox(old(db), user, name) else db == old(db) && r == None
    {
      if !up {
        return None;
      }
      var b := Mailbox(db.nextId, ToLower(TrimSpace(user)), TrimSpace(name));
      var i := 0;
      while i < |db.boxes|
        invariant i <= |db.boxes|
        invariant forall j :: 0 <= j < i ==> !SameKey(db.boxes[j], b)
      {
        if db.boxes[i].user == b.user && db.boxes[i].name == b.name {
          assert db.boxes[i] in db.boxes;
          return None;
        }
        i := i + 1;
      }
      assert !HasBox(db, b.user, b.name);
      db := db.(boxes := InsertBox(db.boxes, b), nextId := db.nextId + 1);
      r := Some(b.id);
    }

    method Mailboxes(user: string, up: bool) returns (r: Option<seq<Mailbox>>)
      ensures r == if up then Some(ListMailboxes(db, user)) else None
    {
      if !up {
        return None;
      }
      if TrimSpace(user) == "" {
        return Some(db.boxes);
      }
      var out: seq<Mailbox> := [];
      var u := ToLower(TrimSpace(user));
      var i := 0;
      while i < |db.boxes|
        invariant i <= |db.boxes|
        invariant OfUser(db.boxes, u) == out + OfUser(db.boxes[i..], u)
      {
        ghost var rest := OfUser(db.boxes[i + 1..], u);
        assert db.boxes[i..][1..] == db.boxes[i + 1..];
        if db.boxes[i].user == u {
          Assoc(out, [db.boxes[i]], rest);
          out := out + [db.boxes[i]];
        } else {
          assert [] + rest == rest;
        }
        i := i + 1;
      }
      assert out + [] == out;
      r := Some(out);
    }

    /**
      On success one more message is there, under an identifier that no message has, in
      the mailbox asked for and with the text and size given; otherwise nothing changes.
     */
    method NewMessage(m: Message, up: bool) returns (r: Option<nat>)
      modifies this
      ensures r.Some? <==> up && exists b :: b in old(db.boxes) && b.id == m.mailbox
      ensures r.None? ==> db == old(db)
      ensures r.Some? ==> db.boxes == old(db.boxes) && r.value in db.messages && IsStored(db.messages[r.value], r.value, m)
      ensures r.Some? ==> forall id :: id != r.value ==>
        (id in db.messages <==> id in old(db.messages)) && (id in db.messages ==> db.messages[id] == old(db.messages)[id])
      ensures ValidDb(old(db)) ==> ValidDb(db) && (r.Some? ==> r.value !in old(db.messages))
      ensures if up then (db, r) == CreateMessage(old(db), m) else db == old(db) && r == None
    {
      ghost var before := db;
      if ValidDb(before) {
        CreateMessageValid(before, m);
      }
      if !up || !HasBoxId(db, m.mailbox) {
        return None;
      }
      var stored := m.(id := db.nextId, direction := ToLower(TrimSpace(m.direction)), from := TrimSpace(m.from),
                       to := TrimSpace(m.to), subject := TrimSpace(m.subject));
      db := db.(messages := db.messages[db.nextId := stored], nextId := db.nextId + 1);
      r := Some(stored.id);
    }

    method GetMessage(id: nat, up: bool) returns (r: Option<Message>)
      ensures r == if up && id in db.messages then Some(db.messages[id]) else None
    {
      r := if up && id in db.messages then Some(db.messages[id]) else None;
    }

    /** After success the message is gone, whether or not it was there, and all others are as they were. */
    method RemoveMessage(id: nat, up: bool) returns (ok: bool)
      modifies this
      ensures ok <==> up
      ensures ok ==> id !in db.messages
      ensures db.boxes == old(db.boxes)
      ensures forall k :: k != id || !ok ==>
        (k in db.messages <==> k in old(db.messages)) && (k in db.messages ==> db.messages[k] == old(db.messages)[k])
      ensures ValidDb(old(db)) ==> ValidDb(db)
      ensures ok == up && db == if up then DeleteMessage(old(db), id) else old(db)
    {
      ghost var before := db;
      if ValidDb(before) {
        DeleteMessageValid(before, id);
      }
      if up {
        db := db.(messages := db.messages - {id});
      }
      ok := up;
    }

    method Messages(box: nat, limit: int, up: bool) returns (r: Option<seq<Message>>)
      requires ValidDb(db)
      ensures r.Some? <==> up
      ensures r.Some? ==> IsPage(db, box, if limit < 1 then 100 else if limit > 1000 then 1000 else limit, r.value)
    {
      if !up {
        return None;
      }
      var most := Limit(limit);
      var rest := set id | id in db.messages && db.messages[id].mailbox == box;
      var out: seq<Message> := [];
      PartPageStart(db, box, rest);
      while rest != {} && |out| < most
        invariant |out| <= most && PartPage(db, box, out, rest)
        decreases |rest|
      {
        var id := Newest(db.messages, rest);
        PartPageStep(db, box, out, rest, id);
        out := out + [db.messages[id]];
        rest := rest - {id};
      }
      PartPageDone(db, box, out, rest, most);
      r := Some(out);
    }
  }

  /** A page in the making: what is still to come is in `rest`, and is no newer. */
  ghost predicate PartPage(db: Db, box: nat, page: seq<Message>, rest: set<nat>) {
    && Distinct(page) && NewestFirst(page)
    && (forall id :: id in rest ==> id in db.messages && db.messages[id].mailbox == box)
    && (forall m :: m in page ==> InBox(db, m, box) && m.id !in rest)
    && (forall m :: InBox(db, m, box) ==> m in page || m.id in rest)
    && (forall m, id :: m in page && id in rest ==> m.receivedAt >= db.messages[id].receivedAt)
  }

  lemma PartPageStart(db: Db, box: nat, rest: set<nat>)
    requires forall id :: id in rest <==> id in db.messages && db.messages[id].mailbox == box
    ensures PartPage(db, box, [], rest)
  {
  }

  lemma PartPageDone(db: Db, box: nat, page: seq<Message>, rest: set<nat>, limit: nat)
    requires PartPage(db, box, page, rest) && |page| <= limit && (rest == {} || |page| == limit)
    ensures IsPage(db, box, limit, page)
  {
  }

  lemma PartPageStep(db: Db, box: nat, page: seq<Message>, rest: set<nat>, id: nat)
    requires ValidDb(db) && PartPage(db, box, page, rest) && id in rest
    requires forall i :: i in rest ==> db.messages[id].receivedAt >= db.messages[i].receivedAt
    ensures PartPage(db, box, page + [db.messages[id]], rest - {id})
  {
    var m := db.messages[id];
    assert m.id == id && m !in page;
    var page' := page + [m];
    assert forall p :: p in page' <==> p in page || p == m;
    assert forall i :: 0 <= i < |page| ==> page[i] in page;
    assert Distinct(page');
    assert NewestFirst(page');
  }

  method Newest(messages: map<nat, Message>, ids: set<nat>) returns (id: nat)
    requires ids != {} && forall i :: i in ids ==> i in messages
    ensures id in ids && forall i :: i in ids ==> messages[id].receivedAt >= messages[i].receivedAt
  {
    id :| id in ids;
    var rest := ids - {id};
    while rest != {}
      invariant id in ids && rest <= ids
      invariant forall i :: i in ids && i !in rest ==> messages[id].receivedAt >= messages[i].receivedAt
      decreases |rest|
    {
      var next :| next in rest;
      if messages[next].receivedAt > messages[id].receivedAt {
        id := next;
      }
      rest := rest - {next};
    }
  }
}
