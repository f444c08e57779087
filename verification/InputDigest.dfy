/** The bytes that an input digest hashes. */
module InputDigest {
  // A Go string or byte slice is a `string` whose characters are its bytes; SHA-256 itself
  // is not modelled.

  import opened Ordering

  datatype Entry = Entry(path: string, mode: int, data: string)

  const MODE_FILE: int := 0x1A4
  const MODE_EXECUTABLE: int := 0x1ED

  const HEADER: string := "works-on-my-whiteboard-input-digest\0v1\0"

  datatype Computed = Preimage(bytes: string) | InvalidEntry | DuplicateEntry

  function CanonicalMode(mode: int): string {
    if mode == MODE_FILE then "100644"
    else if mode == MODE_EXECUTABLE then "100755"
    else ""
  }

  predicate ValidEntry(validPath: string -> bool, e: Entry) {
    validPath(e.path) && CanonicalMode(e.mode) != ""
  }

  // ---- Length framing -------------------------------------------------------------

  function Pow256(width: nat): (p: nat)
    ensures p >= 1
  {
    if width == 0 then 1 else 256 * Pow256(width - 1)
  }

  /** `binary.BigEndian`: the low `width` bytes of `n`, highest first. */
  function BigEndian(n: nat, width: nat): (r: string)
    ensures |r| == width
  {
    if width == 0 then "" else BigEndian(n / 256, width - 1) + [(n % 256) as char]
  }

  lemma {:induction false} BigEndianInjective(m: nat, n: nat, width: nat)
    requires m < Pow256(width) && n < Pow256(width)
    requires BigEndian(m, width) == BigEndian(n, width)
    ensures m == n
  {
    if width > 0 {
      var a, b := BigEndian(m / 256, width - 1), BigEndian(n / 256, width - 1);
      var x, y := (m % 256) as char, (n % 256) as char;
      assert (a + [x])[..width - 1] == a && (b + [y])[..width - 1] == b;
      assert (a + [x])[width - 1] == x && (b + [y])[width - 1] == y;
      BigEndianInjective(m / 256, n / 256, width - 1);
    }
  }

  /** writeLength: eight bytes, wrapping like a uint64. */
  function WriteLength(n: nat): (r: string)
    ensures |r| == 8
  {
    BigEndian(n % Pow256(8), 8)
  }

  /** writeBytes. */
  function Framed(value: string): string {
    WriteLength(|value|) + value
  }

  /** A length that a Go slice can have. */
  predicate Fits(n: nat) {
    n < 0x8000_0000_0000_0000
  }

  lemma LengthInjective(m: nat, n: nat)
    requires Fits(m) && Fits(n) && WriteLength(m) == WriteLength(n)
    ensures m == n
  {
    hide BigEndian;
    BigEndianInjective(m, n, 8);
  }

  /** A framed value can be read back from the front of any bytes. */
  lemma FramedUnambiguous(a: string, r: string, b: string, s: string)
    requires Fits(|a|) && Fits(|b|)
    requires Framed(a) + r == Framed(b) + s
    ensures a == b && r == s
  {
    var x, y := Framed(a) + r, Framed(b) + s;
    assert x[..8] == WriteLength(|a|) && y[..8] == WriteLength(|b|);
    LengthInjective(|a|, |b|);
    assert x[8..8 + |a|] == a && y[8..8 + |b|] == b;
    assert x[8 + |a|..] == r && y[8 + |b|..] == s;
  }

  // ---- The preimage ---------------------------------------------------------------

  function EncodeEntry(e: Entry): string {
    Framed(e.path) + Framed(CanonicalMode(e.mode)) + Framed(e.data)
  }

  function EncodeAll(entries: seq<Entry>): string {
    if entries == [] then "" else EncodeEntry(entries[0]) + EncodeAll(entries[1..])
  }

  function Encode(entries: seq<Entry>): string {
    HEADER + WriteLength(|entries|) + EncodeAll(entries)
  }

  ghost predicate InMemory(entries: seq<Entry>) {
    Fits(|entries|) && forall e <- entries :: Fits(|e.path|) && Fits(|e.data|)
  }

  lemma EntryUnambiguous(a: Entry, r: string, b: Entry, s: string)
    requires Fits(|a.path|) && Fits(|a.data|) && Fits(|b.path|) && Fits(|b.data|)
    requires CanonicalMode(a.mode) != "" && CanonicalMode(b.mode) != ""
    requires EncodeEntry(a) + r == EncodeEntry(b) + s
    ensures a == b && r == s
  {
    hide Framed;
    var m, n := CanonicalMode(a.mode), CanonicalMode(b.mode);
    assert EncodeEntry(a) + r == Framed(a.path) + (Framed(m) + (Framed(a.data) + r));
    assert EncodeEntry(b) + s == Framed(b.path) + (Framed(n) + (Framed(b.data) + s));
    FramedUnambiguous(a.path, Framed(m) + (Framed(a.data) + r), b.path, Framed(n) + (Framed(b.data) + s));
    FramedUnambiguous(m, Framed(a.data) + r, n, Framed(b.data) + s);
    FramedUnambiguous(a.data, r, b.data, s);
    assert m == n ==> m[5] == n[5];
  }

  lemma {:induction false} AllUnambiguous(a: seq<Entry>, b: seq<Entry>)
    requires InMemory(a) && InMemory(b) && |a| == |b|
    requires forall e <- a + b :: CanonicalMode(e.mode) != ""
    requires EncodeAll(a) == EncodeAll(b)
    ensures a == b
  {
    hide EncodeEntry, CanonicalMode;
    if a != [] {
      assert a[0] in a + b && b[0] in a + b && a[0] in a && b[0] in b;
      EntryUnambiguous(a[0], EncodeAll(a[1..]), b[0], EncodeAll(b[1..]));
      assert forall e <- a[1..] + b[1..] :: e in a + b;
      assert forall e <- a[1..] :: e in a;
      assert forall e <- b[1..] :: e in b;
      AllUnambiguous(a[1..], b[1..]);
      assert a == [a[0]] + a[1..] && b == [b[0]] + b[1..];
    }
  }

  lemma EncodeUnambiguous(a: seq<Entry>, b: seq<Entry>)
    requires InMemory(a) && InMemory(b)
    requires forall e <- a + b :: CanonicalMode(e.mode) != ""
    requires Encode(a) == Encode(b)
    ensures a == b
  {
    var h := |HEADER|;
    var x, y := Encode(a), Encode(b);
    assert x[h..h + 8] == WriteLength(|a|) && y[h..h + 8] == WriteLength(|b|);
    LengthInjective(|a|, |b|);
    assert x[h + 8..] == EncodeAll(a) && y[h + 8..] == EncodeAll(b);
    AllUnambiguous(a, b);
  }

  // ---- What the bytes are -------------------------------------------------------------------

  /** The number that some bytes spell, the highest first. */
  function NumberOf(bytes: string): nat {
    if bytes == "" then 0 else bytes[0] as int * Pow256(|bytes| - 1) + NumberOf(bytes[1..])
  }

  lemma {:induction false} NumberOfSnoc(bytes: string, last: char)
    ensures NumberOf(bytes + [last]) == 256 * NumberOf(bytes) + last as int
  {
    if bytes == "" {
      assert [last][1..] == "";
    } else {
      NumberOfSnoc(bytes[1..], last);
      assert (bytes + [last])[1..] == bytes[1..] + [last];
      var high, power := bytes[0] as int, Pow256(|bytes| - 1);
      assert Pow256(|bytes|) == 256 * power;
      assert high * (256 * power) == 256 * (high * power);
    }
  }

  /** A length is written highest byte first, in characters that are bytes. */
  lemma {:induction false} BigEndianSpells(n: nat, width: nat)
    requires n < Pow256(width)
    ensures NumberOf(BigEndian(n, width)) == n && forall c <- BigEndian(n, width) :: c as int < 256
  {
    if width > 0 {
      BigEndianSpells(n / 256, width - 1);
      NumberOfSnoc(BigEndian(n / 256, width - 1), (n % 256) as char);
    }
  }

  /** The two file modes of a Git tree, rw-r--r-- and rwxr-xr-x, and how they are written. */
  lemma ModesSpelled(mode: int)
    ensures CanonicalMode(mode) == "100644" <==> mode == 6 * 64 + 4 * 8 + 4
    ensures CanonicalMode(mode) == "100755" <==> mode == 7 * 64 + 5 * 8 + 5
    ensures CanonicalMode(mode) != "" ==> CanonicalMode(mode) == "100644" || CanonicalMode(mode) == "100755"
  {
    assert "100644"[3] != "100755"[3];
  }

  function Small(n: nat): string
    requires n < 256
  {
    "\0\0\0\0\0\0\0" + [n as char]
  }

  lemma SmallLength(n: nat)
    requires n < 256
    ensures WriteLength(n) == Small(n)
  {
    assert BigEndian(0, 1) == "\0" && BigEndian(0, 2) == "\0\0" && BigEndian(0, 3) == "\0\0\0";
    assert BigEndian(0, 5) == "\0\0\0\0\0" && BigEndian(0, 7) == "\0\0\0\0\0\0\0";
    assert n < Pow256(1) <= Pow256(8);
  }

  lemma EntrySpelled(e: Entry)
    requires |e.path| < 256 && |e.data| < 256 && CanonicalMode(e.mode) != ""
    ensures EncodeEntry(e) == Small(|e.path|) + e.path + (Small(6) + CanonicalMode(e.mode)) + (Small(|e.data|) + e.data)
  {
    hide WriteLength;
    SmallLength(|e.path|);
    SmallLength(6);
    SmallLength(|e.data|);
  }

  /** The bytes of a frozen example: a plain file and a script. */
  lemma GoldenPreimage()
    ensures
      var readme := Entry("README.md", 6 * 64 + 4 * 8 + 4, "hello\n");
      var script := Entry("scripts/run.sh", 7 * 64 + 5 * 8 + 5, "#!/bin/sh\nexit 0\n");
      Encode([readme, script])
      == "works-on-my-whiteboard-input-digest\0v1\0" + Small(2)
         + ((Small(9) + "README.md" + (Small(6) + "100644") + (Small(6) + "hello\n"))
            + (Small(14) + "scripts/run.sh" + (Small(6) + "100755") + (Small(17) + "#!/bin/sh\nexit 0\n")))
  {
    hide EncodeEntry, WriteLength, Small;
    var readme := Entry("README.md", MODE_FILE, "hello\n");
    var script := Entry("scripts/run.sh", MODE_EXECUTABLE, "#!/bin/sh\nexit 0\n");
    EntrySpelled(readme);
    EntrySpelled(script);
    SmallLength(2);
    var both := [readme, script];
    assert both[1..] == [script] && both[1..][1..] == [];
    assert EncodeAll(both[1..]) == EncodeEntry(script);
  }

  // ---- ComputeEntries ---------------------------------------------------------------

  predicate PathLess(a: Entry, b: Entry) {
    Less(a.path, b.path)
  }

  lemma PathOrder()
    ensures StrictWeakOrder(PathLess)
  {
    LessIsStrictWeakOrder();
  }

  ghost predicate DistinctPaths(entries: seq<Entry>) {
    forall i, j :: 0 <= i < j < |entries| ==> entries[i].path != entries[j].path
  }

  ghost predicate Ordered(entries: seq<Entry>, order: seq<Entry>) {
    multiset(order) == multiset(entries) && StrictlySorted(PathLess, order)
  }

  lemma DistinctPathsPermuted(a: seq<Entry>, b: seq<Entry>)
    requires multiset(a) == multiset(b) && DistinctPaths(a)
    ensures DistinctPaths(b)
  {
    assert forall e :: e in a <==> e in multiset(a);
    assert forall e :: e in b <==> e in multiset(b);
    forall i, j | 0 <= i < j < |b|
      ensures b[i].path != b[j].path
    {
      RepeatCounts(b, i, j);
      assert b[i] in a && b[j] in a;
      var x :| 0 <= x < |a| && a[x] == b[i];
      var y :| 0 <= y < |a| && a[y] == b[j];
      if x == y {
        OnlyOnce(a, x);
      } else {
        assert a[if x < y then x else y].path != a[if x < y then y else x].path;
      }
    }
  }

  lemma OnlyOnce(a: seq<Entry>, x: int)
    requires DistinctPaths(a) && 0 <= x < |a|
    ensures multiset(a)[a[x]] == 1
  {
    assert a == a[..x] + [a[x]] + a[x + 1..];
    assert a[x] !in a[..x] && a[x] !in a[x + 1..];
    assert multiset(a) == multiset(a[..x]) + multiset{a[x]} + multiset(a[x + 1..]);
  }

  /** Neighbours of a sorted list differ exactly when all its paths do. */
  lemma NeighboursSuffice(order: seq<Entry>)
    requires Sorted(PathLess, order)
    requires forall i, j :: 0 <= i < j < |order| && j == i + 1 ==> order[i].path != order[j].path
    ensures StrictlySorted(PathLess, order)
  {
    forall i, j | 0 <= i < j < |order|
      ensures PathLess(order[i], order[j])
    {
      LessTrichotomy(order[i].path, order[i + 1].path);
      LessTrichotomy(order[i + 1].path, order[j].path);
      assert i + 1 < j ==> !PathLess(order[j], order[i + 1]);
      if Less(order[i + 1].path, order[j].path) {
        LessTransitive(order[i].path, order[i + 1].path, order[j].path);
      }
    }
  }

  lemma StrictIsDistinct(order: seq<Entry>)
    requires StrictlySorted(PathLess, order)
    ensures DistinctPaths(order)
  {
    forall i, j | 0 <= i < j < |order|
      ensures order[i].path != order[j].path
    {
      LessTrichotomy(order[i].path, order[j].path);
      assert PathLess(order[i], order[j]);
    }
  }

  method ComputeEntries(validPath: string -> bool, source: seq<Entry>) returns (r: Computed, ghost order: seq<Entry>)
    ensures r.InvalidEntry? <==> exists e <- source :: !ValidEntry(validPath, e)
    ensures r.DuplicateEntry? <==> !r.InvalidEntry? && !DistinctPaths(source)
    ensures r.Preimage? ==> Ordered(source, order) && r.bytes == Encode(order)
  {
    hide ValidEntry, EncodeEntry, WriteLength, StrictWeakOrder, PathLess;
    order := [];
    for index := 0 to |source|
      invariant forall e <- source[..index] :: ValidEntry(validPath, e)
    {
      assert source[index] in source;
      if !ValidEntry(validPath, source[index]) {
        return InvalidEntry, order;
      }
    }
    assert source[..|source|] == source;
    PathOrder();
    var entries := Sort(PathLess, source);
    order := entries;
    if DistinctPaths(source) { DistinctPathsPermuted(source, order); }
    var next := 1;
    while next < |entries|
      invariant 1 <= next
      invariant forall i, j :: 0 <= i < j < next && j < |entries| && j == i + 1 ==> entries[i].path != entries[j].path
    {
      if entries[next - 1].path == entries[next].path {
        return DuplicateEntry, order;
      }
      next := next + 1;
    }
    NeighboursSuffice(order);
    StrictIsDistinct(order);
    DistinctPathsPermuted(order, source);
    var written := HEADER + WriteLength(|entries|);
    for index := 0 to |entries|
      invariant written + EncodeAll(entries[index..]) == Encode(order)
    {
      var e := entries[index];
      assert entries[index..][0] == e && entries[index..][1..] == entries[index + 1..];
      ghost var rest := EncodeAll(entries[index + 1..]);
      assert written + EncodeEntry(e) + rest == written + (EncodeEntry(e) + rest);
      written := written + EncodeEntry(e);
    }
    r := Preimage(written);
  }

  /** The preimage is the same for every listing of the entries. */
  lemma ListingIrrelevant(a: seq<Entry>, b: seq<Entry>, x: seq<Entry>, y: seq<Entry>)
    requires multiset(a) == multiset(b) && Ordered(a, x) && Ordered(b, y)
    ensures Encode(x) == Encode(y)
  {
    PathOrder();
    assert forall e :: e in x <==> e in multiset(x);
    assert forall e :: e in y <==> e in multiset(y);
    SortedUnique(PathLess, x, y);
  }

  /** Equal preimages come from equal entries: same paths, modes and data. */
  lemma PreimageDeterminesEntries(validPath: string -> bool, a: seq<Entry>, b: seq<Entry>, x: seq<Entry>, y: seq<Entry>)
    requires Ordered(a, x) && Ordered(b, y) && InMemory(a) && InMemory(b)
    requires forall e <- a + b :: ValidEntry(validPath, e)
    ensures Encode(x) == Encode(y) <==> multiset(a) == multiset(b)
  {
    hide Encode;
    SameElements(a, x);
    SameElements(b, y);
    assert forall e :: e in a + b <==> e in a || e in b;
    assert forall e :: e in x + y <==> e in x || e in y;
    if Encode(x) == Encode(y) {
      EncodeUnambiguous(x, y);
    }
    if multiset(a) == multiset(b) {
      ListingIrrelevant(a, b, x, y);
    }
  }

  lemma SameElements(a: seq<Entry>, x: seq<Entry>)
    requires multiset(x) == multiset(a)
    ensures |a| == |x| && forall e :: e in a <==> e in x
  {
    assert |multiset(a)| == |a| && |multiset(x)| == |x|;
    assert forall e :: e in a <==> e in multiset(a);
    assert forall e :: e in x <==> e in multiset(x);
  }
}
