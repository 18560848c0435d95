/**
  The exporter: three sorted files for Dovecot and Postfix, derived from the mail users.
 */
module Export {
  import opened Text

  datatype User = User(email: string, hash: string)

  datatype Config = Config(mailRoot: string, uid: nat, gid: nat)

  datatype Files = Files(dovecot: string, mailboxes: string, domains: string)

  // ----- paths -----

  function JoinWith(parts: seq<string>, sep: string): string {
    if parts == [] then ""
    else if |parts| == 1 then parts[0]
    else parts[0] + sep + JoinWith(parts[1..], sep)
  }

  /** `filepath.Clean` on the elements of a path: drops empty and `.` elements and resolves `..`. */
  function Resolve(elems: seq<string>, rooted: bool, acc: seq<string>): seq<string> {
    if elems == [] then acc
    else if elems[0] == "" || elems[0] == "." then Resolve(elems[1..], rooted, acc)
    else if elems[0] != ".." then Resolve(elems[1..], rooted, acc + [elems[0]])
    else if acc != [] && acc[|acc| - 1] != ".." then Resolve(elems[1..], rooted, acc[..|acc| - 1])
    else Resolve(elems[1..], rooted, if rooted then acc else acc + [".."])
  }

  predicate Rooted(path: string) {
    path != "" && path[0] == '/'
  }

  function Lead(path: string): string {
    if Rooted(path) then "/" else ""
  }

  function Elements(path: string): seq<string> {
    Resolve(Split(path, '/'), Rooted(path), [])
  }

  function Clean(path: string): string {
    var elems := Elements(path);
    if Rooted(path) then "/" + JoinWith(elems, "/")
    else if elems == [] then "."
    else JoinWith(elems, "/")
  }

  /** `filepath.Join`. */
  function JoinPath(elems: seq<string>): string {
    if elems == [] then ""
    else if elems[0] == "" then JoinPath(elems[1..])
    else Clean(JoinWith(elems, "/"))
  }

  /** A path element that `Clean` keeps as it is. */
  predicate Plain(e: string) {
    e != "" && e != "." && e != ".." && '/' !in e
  }

  lemma {:induction false} ResolvePlain(elems: seq<string>, rooted: bool, acc: seq<string>, e: string)
    requires Plain(e)
    ensures Resolve(elems + [e], rooted, acc) == Resolve(elems, rooted, acc) + [e]
  {
    if elems == [] {
      assert elems + [e] == [e] && [e][1..] == [];
    } else {
      assert (elems + [e])[1..] == elems[1..] + [e];
      var acc' :=
        if elems[0] == "" || elems[0] == "." then acc
        else if elems[0] != ".." then acc + [elems[0]]
        else if acc != [] && acc[|acc| - 1] != ".." then acc[..|acc| - 1]
        else if rooted then acc else acc + [".."];
      ResolvePlain(elems[1..], rooted, acc', e);
    }
  }

  /** Elements with a slash after each. */
  function Slashed(elems: seq<string>): string {
    if elems == [] then "" else (elems[0] + "/") + Slashed(elems[1..])
  }

  lemma {:induction false} JoinSnoc(elems: seq<string>, e: string)
    ensures JoinWith(elems + [e], "/") == Slashed(elems) + e
    ensures Slashed(elems + [e]) == Slashed(elems) + (e + "/")
  {
    if elems == [] {
      assert elems + [e] == [e] && [e][1..] == [];
      assert "" + e == e && "" + (e + "/") == e + "/" && (e + "/") + "" == e + "/";
    } else {
      JoinSnoc(elems[1..], e);
      assert (elems + [e])[1..] == elems[1..] + [e];
      Assoc(elems[0] + "/", Slashed(elems[1..]), e);
      Assoc(elems[0] + "/", Slashed(elems[1..]), e + "/");
    }
  }

  /** What stands before a plain element that is joined to a root. */
  function Base(root: string): string {
    Lead(root) + Slashed(Elements(root))
  }

  lemma ElementsAppend(root: string, e: string)
    requires root != "" && Plain(e)
    ensures Elements(root + "/" + e) == Elements(root) + [e] && Rooted(root + "/" + e) == Rooted(root)
  {
    SplitAt(root, '/', e);
    SplitNoSep(e, '/');
    assert (root + "/" + e)[0] == root[0];
    ResolvePlain(Split(root, '/'), Rooted(root), [], e);
  }

  lemma BaseAppend(root: string, e: string)
    requires root != "" && Plain(e)
    ensures Clean(root + "/" + e) == Base(root) + e
    ensures Base(root + "/" + e) == Base(root) + (e + "/")
  {
    ElementsAppend(root, e);
    var elems := Elements(root);
    JoinSnoc(elems, e);
    Assoc(Lead(root), Slashed(elems), e);
    Assoc(Lead(root), Slashed(elems), e + "/");
    CleanIs(root + "/" + e);
  }

  lemma CleanIs(path: string)
    requires Elements(path) != []
    ensures Clean(path) == Lead(path) + JoinWith(Elements(path), "/")
  {
    assert "" + JoinWith(Elements(path), "/") == JoinWith(Elements(path), "/");
  }

  lemma BasePlain(d: string)
    requires Plain(d)
    ensures Base(d) == d + "/"
  {
    assert d[0] in d;
    SplitNoSep(d, '/');
    assert [] + [d] == [d] && [d][1..] == [];
    assert Resolve([], false, [d]) == [d];
    assert !Rooted(d) by {
      assert d[0] != '/';
    }
    assert Elements(d) == [d];
    assert (d + "/") + "" == d + "/" && "" + (d + "/") == d + "/";
    assert Slashed([d]) == d + "/";
  }

  /** Under any root, two plain elements are kept as they are. */
  lemma JoinTwoPlain(root: string, d: string, e: string)
    requires Plain(d) && Plain(e)
    ensures JoinPath([d, e]) == (d + "/") + e
    ensures root == "" ==> JoinPath([root, d, e]) == (d + "/") + e
    ensures root != "" ==> JoinPath([root, d, e]) == (Base(root) + (d + "/")) + e
  {
    assert [d, e][1..] == [e] && [root, d, e][1..] == [d, e];
    assert JoinWith([d, e], "/") == d + "/" + e;
    BaseAppend(d, e);
    BasePlain(d);
    if root != "" {
      Assoc(root + "/", d + "/", e);
      Assoc(root + "/", d, "/");
      BaseAppend(root + "/" + d, e);
      BaseAppend(root, d);
    }
  }

  // ----- sorting -----

  /** Insertion into a sorted list; with `once`, a line that is there already is not added. */
  function Insert(x: string, s: seq<string>, once: bool): seq<string> {
    if s == [] || Less(x, s[0]) then [x] + s
    else if once && x == s[0] then s
    else [s[0]] + Insert(x, s[1..], once)
  }

  function Sort(lines: seq<string>, once: bool): seq<string> {
    if lines == [] then [] else Insert(lines[0], Sort(lines[1..], once), once)
  }

  predicate Sorted(s: seq<string>) {
    forall i, j :: 0 <= i < j < |s| ==> !Less(s[j], s[i])
  }

  predicate StrictlySorted(s: seq<string>) {
    forall i, j :: 0 <= i < j < |s| ==> Less(s[i], s[j])
  }

  lemma LessOrEqual(x: string, y: string, z: string)
    requires !Less(y, x) && !Less(z, y)
    ensures !Less(z, x)
  {
    LessTotal(x, y);
    LessTotal(y, z);
    if Less(z, x) {
      if x == y || y == z {
      } else {
        LessTransitive(x, y, z);
        LessTransitive(x, z, x);
        LessIrreflexive(x);
      }
    }
  }

  lemma {:induction false} InsertSorted(x: string, s: seq<string>)
    requires Sorted(s)
    ensures Sorted(Insert(x, s, false))
    ensures multiset(Insert(x, s, false)) == multiset(s) + multiset{x}
  {
    if s == [] {
    } else if Less(x, s[0]) {
      NotLess(x, s[0]);
      LessIrreflexive(s[0]);
      forall j | 0 <= j < |s| ensures !Less(s[j], x) {
        LessOrEqual(x, s[0], s[j]);
      }
    } else {
      InsertSorted(x, s[1..]);
      var r := Insert(x, s[1..], false);
      assert s == [s[0]] + s[1..];
      forall j | 0 <= j < |r| ensures !Less(r[j], s[0]) {
        assert r[j] in multiset(r);
        if r[j] != x {
          assert r[j] in multiset(s[1..]);
          assert r[j] in s[1..];
        }
      }
    }
  }

  lemma NotLess(x: string, y: string)
    requires Less(x, y)
    ensures !Less(y, x)
  {
    if Less(y, x) {
      LessTransitive(x, y, x);
      LessIrreflexive(x);
    }
  }

  /** The result of the sort is sorted and a permutation of the lines. */
  lemma {:induction false} SortSorts(lines: seq<string>)
    ensures Sorted(Sort(lines, false)) && multiset(Sort(lines, false)) == multiset(lines)
  {
    if lines != [] {
      SortSorts(lines[1..]);
      InsertSorted(lines[0], Sort(lines[1..], false));
      assert lines == [lines[0]] + lines[1..];
    }
  }

  lemma {:induction false} InsertOnce(x: string, s: seq<string>)
    requires StrictlySorted(s)
    ensures StrictlySorted(Insert(x, s, true))
    ensures forall y :: y in Insert(x, s, true) <==> y == x || y in s
  {
    if s == [] {
    } else if Less(x, s[0]) {
      forall j | 0 <= j < |s| ensures Less(x, s[j]) {
        if j > 0 {
          LessTransitive(x, s[0], s[j]);
        }
      }
    } else if x != s[0] {
      LessTotal(x, s[0]);
      InsertOnce(x, s[1..]);
      assert s == [s[0]] + s[1..];
      var r := Insert(x, s[1..], true);
      forall j | 0 <= j < |r| ensures Less(s[0], r[j]) {
        assert r[j] in r;
      }
    }
  }

  /** The set sort lists every line exactly once, in order. */
  lemma {:induction false} SortOnce(lines: seq<string>)
    ensures StrictlySorted(Sort(lines, true))
    ensures forall y :: y in Sort(lines, true) <==> y in lines
  {
    if lines != [] {
      SortOnce(lines[1..]);
      InsertOnce(lines[0], Sort(lines[1..], true));
      assert lines == [lines[0]] + lines[1..];
    }
  }

  lemma TailMultiset<T>(a: seq<T>)
    requires a != []
    ensures multiset(a[1..]) == multiset(a) - multiset{a[0]}
  {
    assert a == [a[0]] + a[1..];
  }

  lemma LeastFirst(a: seq<string>, x: string)
    requires Sorted(a) && a != [] && x in multiset(a)
    ensures !Less(x, a[0])
  {
    LessIrreflexive(x);
    var i :| 0 <= i < |a| && a[i] == x;
  }

  /** There is only one sorted list with given lines. */
  lemma {:induction false} SortedUnique(a: seq<string>, b: seq<string>)
    requires Sorted(a) && Sorted(b) && multiset(a) == multiset(b)
    ensures a == b
  {
    assert |multiset(a)| == |a| && |multiset(b)| == |b|;
    if a != [] {
      assert a[0] in multiset(a) && b[0] in multiset(b);
      LeastFirst(a, b[0]);
      LeastFirst(b, a[0]);
      LessTotal(a[0], b[0]);
      TailMultiset(a);
      TailMultiset(b);
      SortedUnique(a[1..], b[1..]);
      assert a == [a[0]] + a[1..] && b == [b[0]] + b[1..];
    }
  }

  lemma StrictTail(a: seq<string>)
    requires a != [] && StrictlySorted(a)
    ensures a[0] !in a[1..]
  {
    LessIrreflexive(a[0]);
  }

  /** There is only one strictly sorted list of a given set of lines. */
  lemma {:induction false} StrictUnique(a: seq<string>, b: seq<string>)
    requires StrictlySorted(a) && StrictlySorted(b) && forall x :: x in a <==> x in b
    ensures a == b
  {
    assert a != [] ==> a[0] in a;
    assert b != [] ==> b[0] in b;
    if a != [] && b != [] {
      assert a[0] in b && b[0] in a;
      var i :| 0 <= i < |b| && b[i] == a[0];
      var j :| 0 <= j < |a| && a[j] == b[0];
      if a[0] != b[0] {
        NotLess(b[0], a[0]);
        assert false;
      }
      StrictTail(a);
      StrictTail(b);
      assert a == [a[0]] + a[1..] && b == [b[0]] + b[1..];
      assert forall x :: x in a[1..] <==> x in a && x != a[0];
      assert forall x :: x in b[1..] <==> x in b && x != b[0];
      StrictUnique(a[1..], b[1..]);
    }
  }

  // ----- the exported files -----

  /** The two parts of an address with exactly one at-sign. */
  function Parts(email: string): Option<(string, string)> {
    var parts := Split(email, '@');
    if |parts| == 2 then Some((parts[0], parts[1])) else None
  }

  predicate AllValid(users: seq<User>) {
    forall u :: u in users ==> Parts(u.email).Some?
  }

  function PartsOf(email: string): (string, string) {
    if Parts(email).Some? then Parts(email).value else ("", "")
  }

  function DomainOf(u: User): string {
    PartsOf(u.email).1
  }

  function Maildir(email: string): string {
    var (local, domain) := PartsOf(email);
    JoinPath([domain, local]) + "/"
  }

  function HomeDir(root: string, email: string): string {
    var (local, domain) := PartsOf(email);
    JoinPath([root, domain, local])
  }

  function DovecotLine(cfg: Config): User -> string {
    (u: User) =>
      u.email + (":{BLF-CRYPT}" + (u.hash + (":" + (Itoa(cfg.uid) + (":" + (Itoa(cfg.gid) + ("::" + (HomeDir(cfg.mailRoot, u.email) + "::"))))))))
  }

  function MailboxLine(u: User): string {
    u.email + " " + Maildir(u.email)
  }

  function Map(f: User -> string, users: seq<User>): (r: seq<string>) {
    if users == [] then [] else [f(users[0])] + Map(f, users[1..])
  }

  lemma {:induction false} MapSnoc(f: User -> string, users: seq<User>, u: User)
    ensures Map(f, users + [u]) == Map(f, users) + [f(u)]
  {
    if users == [] {
      assert users + [u] == [u] && [u][1..] == [];
    } else {
      MapSnoc(f, users[1..], u);
      assert (users + [u])[1..] == users[1..] + [u];
    }
  }

  lemma {:induction false} MapIn(f: User -> string, users: seq<User>, line: string)
    ensures line in Map(f, users) <==> exists u :: u in users && f(u) == line
  {
    if users != [] {
      MapIn(f, users[1..], line);
      assert users == [users[0]] + users[1..];
    }
  }

  function FileText(lines: seq<string>): string {
    JoinWith(lines, "\n") + "\n"
  }

  /** The contents of the three files, or None if some stored address has not exactly one at-sign. */
  function Contents(users: seq<User>, cfg: Config): Option<Files> {
    if !AllValid(users) then None
    else Some(Files(
                FileText(Sort(Map(DovecotLine(cfg), users), false)),
                FileText(Sort(Map(MailboxLine, users), false)),
                FileText(Sort(Map(DomainOf, users), true))))
  }

  /** The files on disk. */
  class Disk {
    var files: Files

    constructor (files: Files)
      ensures this.files == files
    {
      this.files := files;
    }

    /**
      `dirs` says whether the directories could be made and `good` how many of the
      three replacements go through before one fails.
     */
    method Export(users: seq<User>, cfg: Config, dirs: bool, good: nat) returns (ok: bool)
      requires good <= 3
      modifies this
      ensures ok <==> dirs && AllValid(users) && good == 3
      ensures !(dirs && AllValid(users)) ==> files == old(files)
      ensures dirs && AllValid(users) ==>
        var c := Contents(users, cfg).value;
        files == Files(if good > 0 then c.dovecot else old(files).dovecot,
                       if good > 1 then c.mailboxes else old(files).mailboxes,
                       if good > 2 then c.domains else old(files).domains)
    {
      if !dirs {
        return false;
      }
      var valid, dovecotLines, mailboxLines, domainsSet := Collect(users, cfg);
      if !valid {
        return false;
      }
      var domains := SortDomains(domainsSet, users);
      if good > 0 {
        files := files.(dovecot := FileText(Sort(dovecotLines, false)));
      }
      if good > 1 {
        files := files.(mailboxes := FileText(Sort(mailboxLines, false)));
      }
      if good > 2 {
        files := files.(domains := FileText(domains));
      }
      ok := good == 3;
    }
  }

  /** The loop over the users; it gives up at an address without exactly one at-sign. */
  method Collect(users: seq<User>, cfg: Config)
    returns (valid: bool, dovecotLines: seq<string>, mailboxLines: seq<string>, domainsSet: set<string>)
    ensures valid == AllValid(users)
    ensures valid ==> dovecotLines == Map(DovecotLine(cfg), users) && mailboxLines == Map(MailboxLine, users)
    ensures valid ==> forall d :: d in domainsSet <==> d in Map(DomainOf, users)
  {
    valid, dovecotLines, mailboxLines, domainsSet := true, [], [], {};
    var i := 0;
    while i < |users|
      invariant i <= |users| && AllValid(users[..i])
      invariant dovecotLines == Map(DovecotLine(cfg), users[..i])
      invariant mailboxLines == Map(MailboxLine, users[..i])
      invariant forall d :: d in domainsSet <==> d in Map(DomainOf, users[..i])
    {
      var u := users[i];
      assert u in users;
      if Parts(u.email).None? {
        valid := false;
        return;
      }
      assert users[..i + 1] == users[..i] + [u];
      MapSnoc(DovecotLine(cfg), users[..i], u);
      MapSnoc(MailboxLine, users[..i], u);
      MapSnoc(DomainOf, users[..i], u);
      dovecotLines := dovecotLines + [DovecotLine(cfg)(u)];
      mailboxLines := mailboxLines + [MailboxLine(u)];
      domainsSet := domainsSet + {DomainOf(u)};
      i := i + 1;
    }
    assert users[..i] == users;
  }

  /** The set comes out of the map in any order and is then sorted. */
  method SortDomains(domainsSet: set<string>, ghost users: seq<User>) returns (domains: seq<string>)
    requires forall d :: d in domainsSet <==> d in Map(DomainOf, users)
    ensures domains == Sort(Map(DomainOf, users), true)
  {
    var rest := domainsSet;
    var listed: seq<string> := [];
    while rest != {}
      invariant rest <= domainsSet && forall d :: d in listed <==> d in domainsSet && d !in rest
      invariant forall i, j :: 0 <= i < j < |listed| ==> listed[i] != listed[j]
      decreases |rest|
    {
      var d :| d in rest;
      listed := listed + [d];
      rest := rest - {d};
    }
    domains := Sort(listed, false);
    SortOfDistinct(listed);
    SortOnce(listed);
    SortOnce(Map(DomainOf, users));
    StrictUnique(domains, Sort(Map(DomainOf, users), true));
  }

  lemma {:induction false} InsertNew(x: string, s: seq<string>)
    requires StrictlySorted(s) && x !in s
    ensures Insert(x, s, false) == Insert(x, s, true)
  {
    if s != [] && !Less(x, s[0]) {
      InsertNew(x, s[1..]);
    }
  }

  /** Distinct lines give the same list whether or not repeats are dropped. */
  lemma {:induction false} SortOfDistinct(lines: seq<string>)
    requires forall i, j :: 0 <= i < j < |lines| ==> lines[i] != lines[j]
    ensures Sort(lines, false) == Sort(lines, true)
  {
    if lines != [] {
      SortOfDistinct(lines[1..]);
      SortOnce(lines[1..]);
      InsertNew(lines[0], Sort(lines[1..], true));
    }
  }

  // ----- what the exporter promises -----

  lemma ConsMultiset(x: string, s: seq<string>)
    ensures multiset([x] + s) == multiset{x} + multiset(s)
  {
  }

  lemma ConsMore(y: string, m: seq<string>, n: seq<string>, x: string)
    requires multiset(m) == multiset(n) + multiset{x}
    ensures multiset([y] + m) == multiset([y] + n) + multiset{x}
  {
    ConsMultiset(y, m);
    ConsMultiset(y, n);
  }

  lemma Without(b: seq<User>, i: nat)
    requires 0 < i < |b|
    ensures var c := b[..i] + b[i + 1..];
      c != [] && c[0] == b[0] && c[1..] == b[1..][..i - 1] + b[1..][i..]
  {
  }

  lemma {:induction false} MapWithout(f: User -> string, b: seq<User>, i: nat)
    requires i < |b|
    ensures multiset(Map(f, b)) == multiset(Map(f, b[..i] + b[i + 1..])) + multiset{f(b[i])}
  {
    if i == 0 {
      assert b[..0] + b[1..] == b[1..];
      ConsMultiset(f(b[0]), Map(f, b[1..]));
    } else {
      Without(b, i);
      MapWithout(f, b[1..], i - 1);
      ConsMore(f(b[0]), Map(f, b[1..]), Map(f, (b[..i] + b[i + 1..])[1..]), f(b[i]));
    }
  }

  lemma {:induction false} MapPermutation(f: User -> string, a: seq<User>, b: seq<User>)
    requires multiset(a) == multiset(b)
    ensures multiset(Map(f, a)) == multiset(Map(f, b))
  {
    assert |multiset(a)| == |a| && |multiset(b)| == |b|;
    if a != [] {
      assert a[0] in multiset(a);
      var i :| 0 <= i < |b| && b[i] == a[0];
      var c := b[..i] + b[i + 1..];
      TailMultiset(a);
      assert b == b[..i] + [b[i]] + b[i + 1..];
      MapPermutation(f, a[1..], c);
      MapWithout(f, b, i);
    }
  }

  lemma SameElements(a: seq<User>, b: seq<User>)
    requires multiset(a) == multiset(b)
    ensures forall u :: u in a <==> u in b
  {
    assert forall u :: u in a <==> u in multiset(a);
    assert forall u :: u in b <==> u in multiset(b);
  }

  /** The files depend on which users there are, not on the order in which they are listed. */
  lemma ContentsOfPermutation(a: seq<User>, b: seq<User>, cfg: Config)
    requires multiset(a) == multiset(b)
    ensures Contents(a, cfg) == Contents(b, cfg)
  {
    SameElements(a, b);
    SortPermutation(DovecotLine(cfg), a, b);
    SortPermutation(MailboxLine, a, b);
    SortOnce(Map(DomainOf, a));
    SortOnce(Map(DomainOf, b));
    forall d ensures d in Map(DomainOf, a) <==> d in Map(DomainOf, b) {
      MapIn(DomainOf, a, d);
      MapIn(DomainOf, b, d);
    }
    StrictUnique(Sort(Map(DomainOf, a), true), Sort(Map(DomainOf, b), true));
  }

  lemma SortPermutation(f: User -> string, a: seq<User>, b: seq<User>)
    requires multiset(a) == multiset(b)
    ensures Sort(Map(f, a), false) == Sort(Map(f, b), false)
  {
    MapPermutation(f, a, b);
    SortSorts(Map(f, a));
    SortSorts(Map(f, b));
    SortedUnique(Sort(Map(f, a), false), Sort(Map(f, b), false));
  }

  /** The domain file lists a domain once if some user has it and not at all otherwise, in strict order. */
  lemma DomainListed(users: seq<User>, d: string)
    ensures StrictlySorted(Sort(Map(DomainOf, users), true))
    ensures d in Sort(Map(DomainOf, users), true) <==> exists u :: u in users && DomainOf(u) == d
  {
    SortOnce(Map(DomainOf, users));
    MapIn(DomainOf, users, d);
  }

  /** Neither part of the address holds a slash or is a dot path. */
  predicate PlainAddress(email: string) {
    Parts(email).Some? && Plain(PartsOf(email).0) && Plain(PartsOf(email).1)
  }

  lemma {:induction false} JoinOfSplit(s: string, sep: char)
    ensures JoinWith(Split(s, sep), [sep]) == s
    ensures forall p :: p in Split(s, sep) ==> sep !in p
  {
    if s != "" {
      JoinOfSplit(s[1..], sep);
      var r := Split(s[1..], sep);
      assert s == [s[0]] + s[1..];
      SplitCons(s[0], s[1..], sep);
      if s[0] == sep {
        assert ([""] + r)[1..] == r;
        assert "" + [sep] == [sep];
      } else {
        assert ([[s[0]] + r[0]] + r[1..])[1..] == r[1..];
        if |r| > 1 {
          Assoc([s[0]], r[0], [sep]);
          Assoc([s[0]], r[0] + [sep], JoinWith(r[1..], [sep]));
        }
      }
    }
  }

  lemma EmailIs(email: string)
    requires Parts(email).Some?
    ensures email == PartsOf(email).0 + "@" + PartsOf(email).1
  {
    JoinOfSplit(email, '@');
    var parts := Split(email, '@');
    assert parts[1..] == [parts[1]];
  }

  lemma CutUnique(d: string, l: string, d': string, l': string)
    requires '/' !in d && '/' !in d' && (d + "/") + l == (d' + "/") + l'
    ensures d == d' && l == l'
  {
    var p, q := (d + "/") + l, (d' + "/") + l';
    assert p[|d|] == '/' && q[|d'|] == '/';
    assert forall i :: 0 <= i < |d| ==> p[i] == d[i] && d[i] in d;
    assert forall i :: 0 <= i < |d'| ==> q[i] == d'[i] && d'[i] in d';
    assert d == p[..|d|] && d' == q[..|d|];
    assert l == p[|d| + 1..] && l' == q[|d| + 1..];
  }

  lemma LastChar(a: string, b: string, c: string)
    requires a + c == b + c
    ensures a == b
  {
    assert |a| == |b|;
    assert a == (a + c)[..|a|] && b == (b + c)[..|b|];
  }

  lemma FirstPart(a: string, b: string, c: string)
    requires c + a == c + b
    ensures a == b
  {
    assert a == (c + a)[|c|..] && b == (c + b)[|c|..];
  }

  /** Two different plain addresses never share a mail directory or a home directory. */
  lemma MaildirsDistinct(a: string, b: string, root: string)
    requires PlainAddress(a) && PlainAddress(b) && a != b
    ensures Maildir(a) != Maildir(b)
    ensures HomeDir(root, a) != HomeDir(root, b)
  {
    var (la, da) := PartsOf(a);
    var (lb, db) := PartsOf(b);
    EmailIs(a);
    EmailIs(b);
    JoinTwoPlain(root, da, la);
    JoinTwoPlain(root, db, lb);
    if Maildir(a) == Maildir(b) {
      LastChar(JoinPath([da, la]), JoinPath([db, lb]), "/");
      CutUnique(da, la, db, lb);
    }
    if HomeDir(root, a) == HomeDir(root, b) {
      if root != "" {
        Assoc(Base(root), da + "/", la);
        Assoc(Base(root), db + "/", lb);
        FirstPart((da + "/") + la, (db + "/") + lb, Base(root));
      }
      CutUnique(da, la, db, lb);
    }
  }

  lemma SplitPair(a: string, b: string, sep: char)
    requires sep !in a && sep !in b
    ensures Split(a + [sep] + b, sep) == [a, b]
  {
    SplitAt(a, sep, b);
    SplitNoSep(a, sep);
    SplitNoSep(b, sep);
  }

  // ----- when two addresses share a directory -----

  predicate Resolved(e: string) {
    e != "" && e != "." && '/' !in e
  }

  lemma {:induction false} ResolveResolved(elems: seq<string>, rooted: bool, acc: seq<string>)
    requires (forall e :: e in elems ==> '/' !in e) && forall e :: e in acc ==> Resolved(e)
    ensures forall e :: e in Resolve(elems, rooted, acc) ==> Resolved(e)
  {
    if elems != [] {
      assert elems[0] in elems && forall e :: e in elems[1..] ==> e in elems;
      var acc' :=
        if elems[0] == "" || elems[0] == "." then acc
        else if elems[0] != ".." then acc + [elems[0]]
        else if acc != [] && acc[|acc| - 1] != ".." then acc[..|acc| - 1]
        else if rooted then acc else acc + [".."];
      ResolveResolved(elems[1..], rooted, acc');
    }
  }

  lemma ElementsResolved(path: string)
    ensures forall e :: e in Elements(path) ==> Resolved(e)
  {
    JoinOfSplit(path, '/');
    ResolveResolved(Split(path, '/'), Rooted(path), []);
  }

  lemma {:induction false} SplitOfJoin(elems: seq<string>, sep: char)
    requires elems != [] && forall e :: e in elems ==> sep !in e
    ensures Split(JoinWith(elems, [sep]), sep) == elems
  {
    assert elems[0] in elems;
    SplitNoSep(elems[0], sep);
    if |elems| > 1 {
      assert forall e :: e in elems[1..] ==> e in elems;
      SplitOfJoin(elems[1..], sep);
      SplitAt(elems[0], sep, JoinWith(elems[1..], [sep]));
    }
  }

  /** Elements joined by slashes begin with their first one. */
  lemma JoinStarts(elems: seq<string>)
    requires elems != [] && forall e :: e in elems ==> Resolved(e)
    ensures var j := JoinWith(elems, "/"); j != "" && j[0] != '/' && j != "."
  {
    var e := elems[0];
    assert e in elems && e[0] in e;
    if |elems| > 1 {
      assert JoinWith(elems, "/")[|e|] == '/';
    }
  }

  lemma JoinInjective(a: seq<string>, b: seq<string>)
    requires a != [] && b != [] && (forall e :: e in a ==> '/' !in e) && (forall e :: e in b ==> '/' !in e)
    requires JoinWith(a, "/") == JoinWith(b, "/")
    ensures a == b
  {
    SplitOfJoin(a, '/');
    SplitOfJoin(b, '/');
  }

  /** A cleaned path tells whether the path is rooted, and what its elements resolve to. */
  lemma CleanTells(path: string)
    ensures Clean(path) != "" && (Clean(path)[0] == '/' <==> Rooted(path))
    ensures Rooted(path) ==> Clean(path)[1..] == JoinWith(Elements(path), "/")
    ensures !Rooted(path) ==> Clean(path) == if Elements(path) == [] then "." else JoinWith(Elements(path), "/")
    ensures Elements(path) != [] ==> JoinWith(Elements(path), "/") != "" && JoinWith(Elements(path), "/") != "."
  {
    ElementsResolved(path);
    if Elements(path) != [] {
      JoinStarts(Elements(path));
    }
  }

  /** Two paths clean to the same one if and only if they are rooted alike and resolve to the same elements. */
  lemma CleanEqualIff(p: string, q: string)
    ensures Clean(p) == Clean(q) <==> Rooted(p) == Rooted(q) && Elements(p) == Elements(q)
  {
    CleanTells(p);
    CleanTells(q);
    if Clean(p) == Clean(q) && Elements(p) != [] && Elements(q) != [] {
      ElementsResolved(p);
      ElementsResolved(q);
      JoinInjective(Elements(p), Elements(q));
    }
  }

  /** What `filepath.Join` cleans: the elements from the first non-empty one on, joined by slashes. */
  function PathOf(elems: seq<string>): string {
    if elems == [] then "" else if elems[0] == "" then PathOf(elems[1..]) else JoinWith(elems, "/")
  }

  lemma {:induction false} JoinPathIs(elems: seq<string>)
    ensures JoinPath(elems) == if PathOf(elems) == "" then "" else Clean(PathOf(elems))
  {
    if elems != [] && elems[0] == "" {
      JoinPathIs(elems[1..]);
    } else if |elems| > 1 {
      assert PathOf(elems)[0] == elems[0][0];
    }
  }

  predicate SamePlace(p: string, q: string) {
    (p == "" <==> q == "") && Rooted(p) == Rooted(q) && Elements(p) == Elements(q)
  }

  lemma JoinEqualIff(a: seq<string>, b: seq<string>)
    ensures JoinPath(a) == JoinPath(b) <==> SamePlace(PathOf(a), PathOf(b))
  {
    JoinPathIs(a);
    JoinPathIs(b);
    CleanEqualIff(PathOf(a), PathOf(b));
    CleanTells(PathOf(a));
    CleanTells(PathOf(b));
  }

  /**
    Two addresses share a mail directory if and only if domain and local part, read as
    one path, are rooted alike and resolve to the same elements; and likewise for the
    home directory, with the mail root in front.
   */
  lemma SharedIff(a: string, b: string, root: string)
    ensures var (la, da) := PartsOf(a);
      var (lb, db) := PartsOf(b);
      Maildir(a) == Maildir(b) <==> SamePlace(PathOf([da, la]), PathOf([db, lb]))
    ensures var (la, da) := PartsOf(a);
      var (lb, db) := PartsOf(b);
      HomeDir(root, a) == HomeDir(root, b) <==> SamePlace(PathOf([root, da, la]), PathOf([root, db, lb]))
  {
    var (la, da) := PartsOf(a);
    var (lb, db) := PartsOf(b);
    JoinEqualIff([da, la], [db, lb]);
    JoinEqualIff([root, da, la], [root, db, lb]);
    if Maildir(a) == Maildir(b) {
      LastChar(JoinPath([da, la]), JoinPath([db, lb]), "/");
    }
  }

  // ----- addresses that the user table can hold -----

  /** The `atext` characters of section 3.2.3 of RFC 5322; the slash is one of them. */
  predicate AtomChar(c: char) {
    || 'a' <= c <= 'z' || 'A' <= c <= 'Z' || IsDigit(c)
    || c in "!#$%&'*+-/=?^_`{|}~"
  }

  /** A `dot-atom` of that section: no dot at either end, and no two in a row. */
  predicate DotAtom(s: string) {
    s != "" && s[0] != '.' && s[|s| - 1] != '.' && DotChars(s) && NoTwoDots(s)
  }

  /** An address of two dot-atoms, as the mail parser of the user handler accepts it. */
  predicate DotAddress(email: string) {
    Parts(email).Some? && DotAtom(PartsOf(email).0) && DotAtom(PartsOf(email).1)
  }

  /** Without a slash such an address is plain. */
  lemma NoSlashPlain(email: string)
    requires DotAddress(email) && '/' !in email
    ensures PlainAddress(email)
  {
    var (l, d) := PartsOf(email);
    EmailIs(email);
    assert forall c :: c in l || c in d ==> c in email;
  }

  lemma {:induction false} SkipEmpty(a: seq<string>, b: seq<string>, rooted: bool, acc: seq<string>)
    ensures Resolve(a + ([""] + b), rooted, acc) == Resolve(a + b, rooted, acc)
  {
    if a == [] {
      assert a + ([""] + b) == [""] + b && ([""] + b)[1..] == b && a + b == b;
    } else {
      assert (a + ([""] + b))[1..] == a[1..] + ([""] + b) && (a + b)[1..] == a[1..] + b;
      var acc' :=
        if a[0] == "" || a[0] == "." then acc
        else if a[0] != ".." then acc + [a[0]]
        else if acc != [] && acc[|acc| - 1] != ".." then acc[..|acc| - 1]
        else if rooted then acc else acc + [".."];
      SkipEmpty(a[1..], b, rooted, acc');
    }
  }

  /** A doubled slash makes no difference. */
  lemma DoubleSlash(p: string, q: string)
    ensures SamePlace(p + "/" + q, p + "/" + ("/" + q))
  {
    SplitAt(p, '/', q);
    SplitAt(p, '/', "/" + q);
    SplitCons('/', q, '/');
    var rooted := Rooted(p + "/" + q);
    assert rooted == Rooted(p + "/" + ("/" + q)) by {
      if p != "" {
        assert (p + "/" + q)[0] == p[0] && (p + "/" + ("/" + q))[0] == p[0];
      }
    }
    assert "/" + q == ['/'] + q && p + "/" + q == p + ['/'] + q && p + "/" + ("/" + q) == p + ['/'] + ("/" + q);
    SkipEmpty(Split(p, '/'), Split(q, '/'), rooted, []);
  }

  lemma SlashedAtom(l: string)
    requires DotAtom(l)
    ensures DotAtom("/" + l)
  {
    var s := "/" + l;
    assert forall i :: 0 < i < |s| ==> s[i] == l[i - 1];
  }

  lemma {:induction false} NoAtSign(s: string)
    requires DotAtom(s)
    ensures '@' !in s
  {
  }

  /**
    Every accepted address has another accepted one with the same mail directory and
    the same home directory: the one with a slash in front.
   */
  lemma EveryAddressHasTwin(email: string, root: string) returns (twin: string)
    requires DotAddress(email)
    ensures DotAddress(twin) && twin != email && '/' in twin
    ensures Maildir(twin) == Maildir(email) && HomeDir(root, twin) == HomeDir(root, email)
  {
    var (l, d) := PartsOf(email);
    twin := ("/" + l) + "@" + d;
    SlashedAtom(l);
    NoAtSign("/" + l);
    NoAtSign(d);
    SplitPair("/" + l, d, '@');
    EmailIs(email);
    assert |twin| == |email| + 1 && twin[0] == '/';
    SharedIff(twin, email, root);
    TwinPaths(root, d, l);
  }

  lemma JoinTwo(d: string, l: string)
    ensures JoinWith([d, l], "/") == d + "/" + l
  {
    assert [d, l][1..] == [l];
  }

  lemma JoinThree(root: string, d: string, l: string)
    ensures JoinWith([root, d, l], "/") == (root + "/" + d) + "/" + l
  {
    assert [root, d, l][1..] == [d, l];
    JoinTwo(d, l);
    Assoc(root + "/", d + "/", l);
    Assoc(root + "/", d, "/");
  }

  lemma TwinPaths(root: string, d: string, l: string)
    requires d != ""
    ensures SamePlace(PathOf([d, "/" + l]), PathOf([d, l]))
    ensures SamePlace(PathOf([root, d, "/" + l]), PathOf([root, d, l]))
  {
    JoinTwo(d, l);
    JoinTwo(d, "/" + l);
    DoubleSlash(d, l);
    if root == "" {
      assert [root, d, l][1..] == [d, l] && [root, d, "/" + l][1..] == [d, "/" + l];
    } else {
      JoinThree(root, d, l);
      JoinThree(root, d, "/" + l);
      DoubleSlash(root + "/" + d, l);
    }
  }

  /** Accepted addresses without a slash have directories of their own. */
  lemma NoSlashDistinct(a: string, b: string, root: string)
    requires DotAddress(a) && DotAddress(b) && '/' !in a && '/' !in b && a != b
    ensures Maildir(a) != Maildir(b) && HomeDir(root, a) != HomeDir(root, b)
  {
    NoSlashPlain(a);
    NoSlashPlain(b);
    MaildirsDistinct(a, b, root);
  }

  predicate DotChars(s: string) {
    forall i :: 0 <= i < |s| ==> AtomChar(s[i]) || s[i] == '.'
  }

  predicate NoTwoDots(s: string) {
    forall i :: 0 <= i < |s| - 1 ==> s[i] == '.' ==> s[i + 1] != '.'
  }

  lemma CharsJoin(x: string, y: string)
    requires DotChars(x) && DotChars(y)
    ensures DotChars(x + "/" + y)
  {
  }

  lemma DotsJoin(x: string, y: string)
    requires x != "" && x[|x| - 1] != '.' && NoTwoDots(x) && NoTwoDots(y)
    ensures NoTwoDots(x + "/" + y)
  {
    var s := x + "/" + y;
    forall i | 0 <= i < |s| - 1 && s[i] == '.' ensures s[i + 1] != '.' {
      if i < |x| - 1 {
        assert s[i] == x[i] && s[i + 1] == x[i + 1];
      } else if i > |x| {
        assert s[i] == y[i - |x| - 1] && s[i + 1] == y[i - |x|];
      }
    }
  }

  lemma AtomsJoin(x: string, y: string)
    requires DotAtom(x) && DotAtom(y)
    ensures DotAtom(x + "/" + y)
  {
    CharsJoin(x, y);
    DotsJoin(x, y);
  }

  lemma AddressParts(l: string, d: string)
    requires DotAtom(l) && DotAtom(d)
    ensures DotAddress(l + "@" + d) && PartsOf(l + "@" + d) == (l, d)
  {
    NoAtSign(l);
    NoAtSign(d);
    SplitPair(l, d, '@');
  }

  /** A slash may stand on either side of the at-sign: `x/y@d` and `y@d/x` share a directory, as `a/b@c` and `b@c/a` do. */
  lemma SlashMoves(x: string, y: string, d: string)
    requires DotAtom(x) && DotAtom(y) && DotAtom(d)
    ensures DotAddress(x + "/" + y + "@" + d) && DotAddress(y + "@" + (d + "/" + x))
    ensures Maildir(x + "/" + y + "@" + d) == Maildir(y + "@" + (d + "/" + x))
  {
    AtomsJoin(x, y);
    AtomsJoin(d, x);
    AddressParts(x + "/" + y, d);
    AddressParts(y, d + "/" + x);
    JoinTwo(d, x + "/" + y);
    JoinTwo(d + "/" + x, y);
    Assoc(d + "/", x + "/", y);
    Assoc(d + "/", x, "/");
  }

  // ----- reading the files -----

  /** The first column of a line, and the others. */
  lemma Column(a: string, rest: string, line: string)
    requires ':' !in a && line == a + (":" + rest)
    ensures Split(line, ':') == [a] + Split(rest, ':')
  {
    SplitNoSep(a, ':');
    SplitAt(a, ':', rest);
    assert line == a + [':'] + rest;
  }

  /** A line of the user file of Dovecot. */
  datatype Account = Account(user: string, password: string, uid: nat, gid: nat, home: string)

  /** Eight columns with colons between them: user, password, uid, gid, an empty comment, home, and two more empty ones. */
  function ReadAccount(line: string): Option<Account> {
    var c := Split(line, ':');
    if |c| == 8 && c[4] == c[6] == c[7] == "" && Decimal(c[2]).Some? && Decimal(c[3]).Some?
    then Some(Account(c[0], c[1], Decimal(c[2]).value, Decimal(c[3]).value, c[5]))
    else None
  }

  /** The last four columns: an empty one, the home, and two empty ones. */
  lemma LastColumns(home: string)
    requires ':' !in home
    ensures Split(":" + (home + "::"), ':') == ["", home, "", ""]
  {
    Column("", "", ":");
    Column("", ":", "::");
    assert "::" == "" + (":" + ":") && ":" == "" + (":" + "");
    Column(home, ":", home + "::");
    Column("", home + "::", ":" + (home + "::"));
    assert home + "::" == home + (":" + ":") && ":" + (home + "::") == "" + (":" + (home + "::"));
  }

  lemma NumberColumn(n: nat)
    ensures ':' !in Itoa(n) && '\n' !in Itoa(n) && Decimal(Itoa(n)) == Some(n)
  {
    ItoaDigits(n);
  }

  lemma Columns(a: string, b: string, c: string, d: string, home: string, line: string)
    requires ':' !in a && ':' !in b && ':' !in c && ':' !in d && ':' !in home
    requires line == a + (":" + (b + (":" + (c + (":" + (d + (":" + (":" + (home + "::")))))))))
    ensures Split(line, ':') == [a, b, c, d, "", home, "", ""]
  {
    LastColumns(home);
    var l4 := ":" + (home + "::");
    var l3 := d + (":" + l4);
    var l2 := c + (":" + l3);
    var l1 := b + (":" + l2);
    Column(d, l4, l3);
    Column(c, l3, l2);
    Column(b, l2, l1);
    Column(a, l1, line);
  }

  /** The line in the form in which its columns stand. */
  lemma DovecotLineIs(cfg: Config, u: User)
    ensures var home := HomeDir(cfg.mailRoot, u.email);
      DovecotLine(cfg)(u) == u.email + (":" + (("{BLF-CRYPT}" + u.hash) + (":" + (Itoa(cfg.uid) + (":" + (Itoa(cfg.gid) + (":" + (":" + (home + "::")))))))))
  {
    var home := HomeDir(cfg.mailRoot, u.email);
    var t1 := Itoa(cfg.gid) + ("::" + (home + "::"));
    assert "::" + (home + "::") == ":" + (":" + (home + "::"));
    var t2 := ":" + (Itoa(cfg.uid) + (":" + t1));
    assert ":{BLF-CRYPT}" + (u.hash + t2) == ":" + (("{BLF-CRYPT}" + u.hash) + t2);
  }

  /** Nothing in these fields is taken for a column or line end. */
  predicate Printable(cfg: Config, u: User) {
    && ':' !in u.email && ':' !in u.hash && ':' !in cfg.mailRoot
    && '\n' !in u.email && '\n' !in u.hash && '\n' !in cfg.mailRoot && ' ' !in u.email
  }

  /** What Dovecot reads from a user's line: the address, the bcrypt hash, the configured owner, and the home under the mail root. */
  lemma DovecotLineReadsBack(cfg: Config, u: User)
    requires Printable(cfg, u) && Parts(u.email).Some?
    ensures ReadAccount(DovecotLine(cfg)(u))
      == Some(Account(u.email, "{BLF-CRYPT}" + u.hash, cfg.uid, cfg.gid, HomeDir(cfg.mailRoot, u.email)))
  {
    var home := HomeDir(cfg.mailRoot, u.email);
    DovecotLineIs(cfg, u);
    HomeChars(cfg.mailRoot, u.email, ':');
    NumberColumn(cfg.uid);
    NumberColumn(cfg.gid);
    Columns(u.email, "{BLF-CRYPT}" + u.hash, Itoa(cfg.uid), Itoa(cfg.gid), home, DovecotLine(cfg)(u));
  }

  /** What Postfix reads: up to the first space the address, then its mail directory. */
  lemma MailboxLineReadsBack(u: User)
    requires ' ' !in u.email
    ensures WordOf(MailboxLine(u)) == u.email && RestOf(MailboxLine(u)) == Maildir(u.email)
  {
    FirstWord(MailboxLine(u), u.email, Maildir(u.email));
  }

  // ----- the directories themselves -----

  lemma {:induction false} SlashedIs(elems: seq<string>)
    requires elems != []
    ensures Slashed(elems) == JoinWith(elems, "/") + "/"
  {
    if |elems| == 1 {
      assert elems[1..] == [];
      assert (elems[0] + "/") + "" == elems[0] + "/";
    } else {
      SlashedIs(elems[1..]);
      Assoc(elems[0] + "/", JoinWith(elems[1..], "/"), "/");
    }
  }

  /** A path that is clean, and neither the root nor the current directory. */
  predicate Directory(path: string) {
    path != "" && Clean(path) == path && Elements(path) != []
  }

  lemma BaseOfDirectory(root: string)
    requires Directory(root)
    ensures Base(root) == root + "/"
  {
    CleanIs(root);
    SlashedIs(Elements(root));
    Assoc(Lead(root), JoinWith(Elements(root), "/"), "/");
  }

  /** For a plain address: the domain's directory in the mail root, and the user's in that. */
  lemma DirectoriesAre(root: string, email: string)
    requires PlainAddress(email) && Directory(root)
    ensures var (l, d) := PartsOf(email);
      Maildir(email) == ((d + "/") + l) + "/" && HomeDir(root, email) == ((root + "/") + (d + "/")) + l
  {
    var (l, d) := PartsOf(email);
    JoinTwoPlain(root, d, l);
    BaseOfDirectory(root);
  }

  // ----- characters of a path -----

  lemma {:induction false} PieceChars(s: string, sep: char, c: char)
    requires c !in s
    ensures forall p :: p in Split(s, sep) ==> c !in p
  {
    if s != "" {
      assert s[0] in s && forall x :: x in s[1..] ==> x in s;
      PieceChars(s[1..], sep, c);
    }
  }

  lemma {:induction false} ResolveChars(elems: seq<string>, rooted: bool, acc: seq<string>, c: char)
    requires c != '.' && (forall e :: e in elems ==> c !in e) && forall e :: e in acc ==> c !in e
    ensures forall e :: e in Resolve(elems, rooted, acc) ==> c !in e
  {
    if elems != [] {
      assert elems[0] in elems && forall e :: e in elems[1..] ==> e in elems;
      var acc' :=
        if elems[0] == "" || elems[0] == "." then acc
        else if elems[0] != ".." then acc + [elems[0]]
        else if acc != [] && acc[|acc| - 1] != ".." then acc[..|acc| - 1]
        else if rooted then acc else acc + [".."];
      ResolveChars(elems[1..], rooted, acc', c);
    }
  }

  lemma {:induction false} JoinChars(elems: seq<string>, sep: string, c: char)
    requires c !in sep && forall e :: e in elems ==> c !in e
    ensures c !in JoinWith(elems, sep)
  {
    if |elems| > 0 {
      assert elems[0] in elems && forall e :: e in elems[1..] ==> e in elems;
      if |elems| > 1 {
        JoinChars(elems[1..], sep, c);
      }
    }
  }

  lemma CleanChars(path: string, c: char)
    requires c !in path && c != '.' && c != '/'
    ensures c !in Clean(path)
  {
    PieceChars(path, '/', c);
    ResolveChars(Split(path, '/'), Rooted(path), [], c);
    JoinChars(Elements(path), "/", c);
  }

  lemma {:induction false} PathChars(elems: seq<string>, c: char)
    requires c != '.' && c != '/' && forall e :: e in elems ==> c !in e
    ensures c !in JoinPath(elems)
  {
    if elems != [] {
      if elems[0] == "" {
        assert forall e :: e in elems[1..] ==> e in elems;
        PathChars(elems[1..], c);
      } else {
        JoinChars(elems, "/", c);
        CleanChars(JoinWith(elems, "/"), c);
      }
    }
  }

  lemma HomeChars(root: string, email: string, c: char)
    requires c != '.' && c != '/' && c !in root && c !in email && Parts(email).Some?
    ensures c !in HomeDir(root, email) && c !in Maildir(email)
  {
    var (l, d) := PartsOf(email);
    EmailIs(email);
    assert forall x :: x in l || x in d ==> x in email;
    PathChars([root, d, l], c);
    PathChars([d, l], c);
  }

  // ----- the lines of the files -----

  /** The lines of a file, if it ends in a line feed. */
  function FileLines(text: string): seq<string> {
    var pieces := Split(text, '\n');
    pieces[..|pieces| - 1]
  }

  lemma FileLinesBack(lines: seq<string>)
    requires lines != [] && forall l :: l in lines ==> '\n' !in l
    ensures FileLines(FileText(lines)) == lines
  {
    SplitOfJoin(lines, '\n');
    SplitAt(JoinWith(lines, "\n"), '\n', "");
    assert FileText(lines) == JoinWith(lines, "\n") + ['\n'] + "";
    assert Split("", '\n') == [""];
  }

  lemma DovecotLineIsLine(cfg: Config, u: User)
    requires Printable(cfg, u) && Parts(u.email).Some?
    ensures '\n' !in DovecotLine(cfg)(u)
  {
    HomeChars(cfg.mailRoot, u.email, '\n');
    NumberColumn(cfg.uid);
    NumberColumn(cfg.gid);
  }

  lemma MailboxLineIsLine(u: User)
    requires '\n' !in u.email && Parts(u.email).Some?
    ensures '\n' !in MailboxLine(u)
  {
    HomeChars("", u.email, '\n');
  }

  lemma SortedFile(f: User -> string, users: seq<User>)
    requires users != [] && forall u :: u in users ==> '\n' !in f(u)
    ensures var lines := FileLines(FileText(Sort(Map(f, users), false)));
      Sorted(lines) && multiset(lines) == multiset(Map(f, users)) && |lines| == |users|
  {
    var lines := Sort(Map(f, users), false);
    SortSorts(Map(f, users));
    MapLength(f, users);
    assert |multiset(lines)| == |lines| && |multiset(Map(f, users))| == |users|;
    forall l | l in lines ensures '\n' !in l {
      assert l in multiset(lines);
      assert l in Map(f, users);
      MapIn(f, users, l);
    }
    FileLinesBack(lines);
  }

  lemma {:induction false} MapLength(f: User -> string, users: seq<User>)
    ensures |Map(f, users)| == |users|
  {
    if users != [] {
      MapLength(f, users[1..]);
    }
  }

  /**
    Reading the files line by line: Dovecot's has exactly one line for each user, which
    reads back as that user's account, and Postfix's exactly one, which reads back as
    the address and its mail directory.
   */
  lemma FilesReadBack(users: seq<User>, cfg: Config)
    requires users != [] && AllValid(users) && forall u :: u in users ==> Printable(cfg, u)
    ensures Contents(users, cfg).Some?
    ensures var lines := FileLines(Contents(users, cfg).value.dovecot);
      Sorted(lines) && |lines| == |users| && multiset(lines) == multiset(Map(DovecotLine(cfg), users))
    ensures var lines := FileLines(Contents(users, cfg).value.mailboxes);
      Sorted(lines) && |lines| == |users| && multiset(lines) == multiset(Map(MailboxLine, users))
    ensures forall u :: u in users ==>
      && ReadAccount(DovecotLine(cfg)(u))
         == Some(Account(u.email, "{BLF-CRYPT}" + u.hash, cfg.uid, cfg.gid, HomeDir(cfg.mailRoot, u.email)))
      && WordOf(MailboxLine(u)) == u.email && RestOf(MailboxLine(u)) == Maildir(u.email)
  {
    forall u | u in users ensures '\n' !in DovecotLine(cfg)(u) && '\n' !in MailboxLine(u) {
      DovecotLineIsLine(cfg, u);
      MailboxLineIsLine(u);
    }
    SortedFile(DovecotLine(cfg), users);
    SortedFile(MailboxLine, users);
    forall u | u in users
      ensures ReadAccount(DovecotLine(cfg)(u))
        == Some(Account(u.email, "{BLF-CRYPT}" + u.hash, cfg.uid, cfg.gid, HomeDir(cfg.mailRoot, u.email)))
      ensures WordOf(MailboxLine(u)) == u.email && RestOf(MailboxLine(u)) == Maildir(u.email)
    {
      DovecotLineReadsBack(cfg, u);
      MailboxLineReadsBack(u);
    }
  }

  /** The domain file, line by line: exactly the domains of the users, each once, in order. */
  lemma DomainFileReadsBack(users: seq<User>, cfg: Config, d: string)
    requires users != [] && AllValid(users) && forall u :: u in users ==> Printable(cfg, u)
    ensures Contents(users, cfg).Some?
    ensures var lines := FileLines(Contents(users, cfg).value.domains);
      StrictlySorted(lines) && (d in lines <==> exists u :: u in users && DomainOf(u) == d)
  {
    var lines := Sort(Map(DomainOf, users), true);
    SortOnce(Map(DomainOf, users));
    forall l | l in lines ensures '\n' !in l {
      MapIn(DomainOf, users, l);
      var u :| u in users && DomainOf(u) == l;
      EmailIs(u.email);
      assert forall x :: x in l ==> x in u.email;
    }
    DomainListed(users, d);
    assert users[0] in users;
    DomainListed(users, DomainOf(users[0]));
    FileLinesBack(lines);
  }

  /** Without users every file is an empty line. */
  lemma NoUsersNoRecords(cfg: Config)
    ensures Contents([], cfg) == Some(Files("\n", "\n", "\n"))
  {
    assert "" + "\n" == "\n";
  }
}
