/** Git object framing, tree payloads, tree order and the loose-object writer. */
module GitObjects {
  import opened Text
  import opened Sorting

  type Bytes = seq<int>

  /** An object id as its 20 raw bytes. */
  type Oid = s: Bytes | |s| == 20 witness seq(20, i => 0)

  datatype Mode = Regular | Executable | Symlink | Directory

  /** One entry of a tree object under construction. */
  datatype Child = Child(mode: Mode, name: string, sha: Oid)

  const SPACE := 32
  const NUL := 0
  const SLASH := 47

  function ModeText(m: Mode): string {
    match m
    case Regular => "100644"
    case Executable => "100755"
    case Symlink => "120000"
    case Directory => "040000"
  }

  /** Git stores a subtree's mode without its leading zero. */
  function StoredMode(m: Mode): string {
    if ModeText(m) == "040000" then "40000" else ModeText(m)
  }

  // ---------------------------------------------------------------- frames

  function Header(kind: string, payload: Bytes): string {
    kind + " " + Decimal(|payload|) + "\0"
  }

  /** The bytes that are hashed and stored: `<kind> <length>NUL<payload>`. */
  function Frame(kind: string, payload: Bytes): Bytes {
    Utf8(Header(kind, payload)) + payload
  }

  /** Index of the first `b`, or the length when there is none. */
  function IndexOf(bytes: Bytes, b: int): (i: nat)
    ensures i <= |bytes|
    ensures b !in bytes[..i]
    ensures i < |bytes| ==> bytes[i] == b
  {
    if bytes == [] || bytes[0] == b then 0
    else
      var i := IndexOf(bytes[1..], b) + 1;
      assert bytes[..i] == [bytes[0]] + bytes[1..][..i - 1];
      i
  }

  lemma IndexOfIs(bytes: Bytes, b: int, i: nat)
    requires i < |bytes| && bytes[i] == b && b !in bytes[..i]
    ensures IndexOf(bytes, b) == i
  {
    var k := IndexOf(bytes, b);
    assert forall j | 0 <= j < i :: bytes[..i][j] == bytes[j];
    assert forall j | 0 <= j < k :: bytes[..k][j] == bytes[j];
  }

  function KindOf(frame: Bytes): Bytes { frame[..IndexOf(frame, SPACE)] }

  /** What follows the header. */
  function PayloadOf(frame: Bytes): Bytes {
    var nul := IndexOf(frame, NUL);
    if nul < |frame| then frame[nul + 1..] else []
  }

  predicate PlainKind(kind: string) { ' ' !in kind && '\0' !in kind }

  /** Plain ASCII text is its own bytes. */
  lemma {:induction false} AsciiBytes(s: string)
    requires forall i | 0 <= i < |s| :: s[i] as int < 0x80
    ensures Utf8(s) == seq(|s|, i requires 0 <= i < |s| => s[i] as int)
  {
    if s != [] {
      AsciiBytes(s[1..]);
    }
  }

  /** A frame is the kind, the length in decimal and the payload, behind one space and one NUL. */
  lemma FrameDecodes(kind: string, payload: Bytes)
    requires PlainKind(kind)
    ensures KindOf(Frame(kind, payload)) == Utf8(kind)
    ensures PayloadOf(Frame(kind, payload)) == payload
    ensures exists digits :: ParseDecimal(digits) == Some(|payload|)
              && Frame(kind, payload) == Utf8(kind) + [32] + Utf8(digits) + [0] + payload
  {
    var digits := Decimal(|payload|);
    var f := Frame(kind, payload);
    DecimalRoundTrip(|payload|);
    Utf8Parts(kind, ' ', digits, '\0');
    Utf8Ascii(kind, ' ');
    Utf8Ascii(kind, '\0');
    Utf8Ascii(digits, '\0');
    assert Header(kind, payload) == kind + [' '] + digits + ['\0'];
    var k, d := |Utf8(kind)|, |Utf8(digits)|;
    assert f == Utf8(kind) + [SPACE] + Utf8(digits) + [NUL] + payload;
    assert f[..k] == Utf8(kind);
    assert f[..k + 1 + d] == Utf8(kind) + [SPACE] + Utf8(digits);
    IndexOfIs(f, SPACE, k);
    IndexOfIs(f, NUL, k + 1 + d);
    assert f[k + 1 + d + 1..] == payload;
  }

  lemma Utf8Parts(a: string, c: char, b: string, d: char)
    requires c as int < 0x80 && d as int < 0x80
    ensures Utf8(a + [c] + b + [d]) == Utf8(a) + [c as int] + Utf8(b) + [d as int]
  {
    EncodeConcat(Utf8Char, a + [c] + b, [d]);
    EncodeConcat(Utf8Char, a + [c], b);
    EncodeConcat(Utf8Char, a, [c]);
    assert [c][1..] == "" && [d][1..] == "";
  }

  lemma FrameInjective(k1: string, p1: Bytes, k2: string, p2: Bytes)
    requires PlainKind(k1) && PlainKind(k2)
    requires Frame(k1, p1) == Frame(k2, p2)
    ensures k1 == k2 && p1 == p2
  {
    FrameDecodes(k1, p1);
    FrameDecodes(k2, p2);
    Utf8Injective(k1, k2);
  }

  // ---------------------------------------------------------------- tree payloads

  /** `<mode> <name>NUL`, with a subtree's mode as Git stores it. */
  function EntryHead(mode: string, name: string): Bytes { Utf8(mode + " " + name + "\0") }

  function EntryBytes(c: Child): Bytes { EntryHead(StoredMode(c.mode), c.name) + c.sha }

  /** `<mode> <name>NUL<20 raw bytes>` per entry. */
  function Payload(cs: seq<Child>): Bytes {
    if cs == [] then [] else EntryBytes(cs[0]) + Payload(cs[1..])
  }

  lemma ConcatAssociates(a: Bytes, b: Bytes, c: Bytes)
    ensures a + (b + c) == a + b + c
  {
  }

  lemma {:induction false} PayloadConcat(a: seq<Child>, b: seq<Child>)
    ensures Payload(a + b) == Payload(a) + Payload(b)
    decreases |a|
  {
    if a == [] {
      assert a + b == b;
    } else {
      PayloadConcat(a[1..], b);
      assert (a + b)[1..] == a[1..] + b;
      ConcatAssociates(EntryBytes(a[0]), Payload(a[1..]), Payload(b));
    }
  }

  lemma PayloadNext(cs: seq<Child>, i: nat)
    requires i < |cs|
    ensures Payload(cs[..i + 1])
         == Payload(cs[..i]) + EntryHead(StoredMode(cs[i].mode), cs[i].name) + cs[i].sha
  {
    PayloadConcat(cs[..i], [cs[i]]);
    assert cs[..i + 1] == cs[..i] + [cs[i]];
    assert [cs[i]][1..] == [];
  }

  method SerializeTreePayload(entries: seq<Child>) returns (payload: Bytes)
    ensures payload == Payload(entries)
  {
    payload := [];
    for i := 0 to |entries|
      invariant payload == Payload(entries[..i])
    {
      PayloadNext(entries, i);
      payload := payload + EntryHead(StoredMode(entries[i].mode), entries[i].name);
      payload := payload + entries[i].sha;
    }
    assert entries[..|entries|] == entries;
  }

  /** One entry as a reader of the stored bytes sees it. */
  datatype Item = Item(mode: Mode, name: Bytes, sha: Oid)

  function ModeFrom(bytes: Bytes): Option<Mode> {
    if bytes == Utf8(StoredMode(Regular)) then Some(Regular)
    else if bytes == Utf8(StoredMode(Executable)) then Some(Executable)
    else if bytes == Utf8(StoredMode(Symlink)) then Some(Symlink)
    else if bytes == Utf8(StoredMode(Directory)) then Some(Directory)
    else None
  }

  /** The fields of one entry, mode still as bytes, and the rest of the bytes. */
  function SplitEntry(bytes: Bytes): (r: Option<(Bytes, Bytes, Oid, Bytes)>)
    ensures r.Some? ==> |r.value.3| < |bytes|
  {
    var sp := IndexOf(bytes, SPACE);
    if sp == |bytes| then None
    else
      var after := bytes[sp + 1..];
      var nul := IndexOf(after, NUL);
      if nul + 21 > |after| then None
      else Some((bytes[..sp], after[..nul], after[nul + 1..nul + 21], after[nul + 21..]))
  }

  /** Reads one entry; the rest of the bytes follows. */
  function ReadEntry(bytes: Bytes): (r: Option<(Item, Bytes)>)
    ensures r.Some? ==> |r.value.1| < |bytes|
  {
    match SplitEntry(bytes)
    case None => None
    case Some((mode, name, sha, rest)) =>
      match ModeFrom(mode)
      case None => None
      case Some(m) => Some((Item(m, name, sha), rest))
  }

  /** Reads a tree payload the way `git ls-tree` does. */
  function ParseTree(bytes: Bytes): Option<seq<Item>>
    decreases |bytes|
  {
    if bytes == [] then Some([])
    else
      match ReadEntry(bytes)
      case None => None
      case Some((item, rest)) =>
        match ParseTree(rest)
        case None => None
        case Some(items) => Some([item] + items)
  }

  ghost predicate Parses(bytes: Bytes, items: seq<Item>) { ParseTree(bytes) == Some(items) }

  predicate ValidName(name: string) { name != "" && '/' !in name && '\0' !in name }

  predicate ValidChildren(cs: seq<Child>) {
    forall c | c in cs :: ValidName(c.name)
  }

  function ItemOf(c: Child): Item { Item(c.mode, Utf8(c.name), c.sha) }

  function Items(cs: seq<Child>): seq<Item> { seq(|cs|, i requires 0 <= i < |cs| => ItemOf(cs[i])) }

  lemma ModeHasNoSpace(m: Mode)
    ensures SPACE !in Utf8(StoredMode(m))
  {
    assert ' ' !in StoredMode(m);
    Utf8Ascii(StoredMode(m), ' ');
  }

  lemma ModeRoundTrip(m: Mode)
    ensures ModeFrom(Utf8(StoredMode(m))) == Some(m)
    ensures SPACE !in Utf8(StoredMode(m))
  {
    ModeHasNoSpace(m);
    ModeBytesDiffer(Regular, m);
    ModeBytesDiffer(Executable, m);
    ModeBytesDiffer(Symlink, m);
    ModeBytesDiffer(Directory, m);
  }

  lemma ModeBytesDiffer(n: Mode, m: Mode)
    ensures Utf8(StoredMode(n)) == Utf8(StoredMode(m)) ==> n == m
  {
    if Utf8(StoredMode(n)) == Utf8(StoredMode(m)) {
      Utf8Injective(StoredMode(n), StoredMode(m));
      ModeTextsDiffer(n, m);
    }
  }

  lemma ModeTextsDiffer(n: Mode, m: Mode)
    requires StoredMode(n) == StoredMode(m)
    ensures n == m
  {
    assert StoredMode(n)[0] == StoredMode(m)[0];
    assert StoredMode(n)[1] == StoredMode(m)[1];
    assert StoredMode(n)[3] == StoredMode(m)[3];
  }

  /** Cutting at the first delimiter. */
  lemma Cut(p: Bytes, b: int, q: Bytes)
    requires b !in p
    ensures IndexOf(p + [b] + q, b) == |p|
    ensures (p + [b] + q)[..|p|] == p
    ensures (p + [b] + q)[|p| + 1..] == q
  {
    assert (p + [b] + q)[..|p|] == p;
    IndexOfIs(p + [b] + q, b, |p|);
  }

  lemma Behind(name: Bytes, sha: Oid, rest: Bytes)
    ensures var after := name + [NUL] + (sha + rest);
      && |after| == |name| + 21 + |rest|
      && after[|name| + 1..|name| + 21] == sha
      && after[|name| + 21..] == rest
  {
    var after := name + [NUL] + (sha + rest);
    assert after[|name| + 1..|name| + 21] == after[|name| + 1..][..20] == sha;
    assert after[|name| + 21..] == after[|name| + 1..][20..] == rest;
  }

  lemma SplitOne(mode: Bytes, name: Bytes, sha: Oid, rest: Bytes)
    requires SPACE !in mode && NUL !in name
    ensures SplitEntry(mode + [SPACE] + (name + [NUL] + (sha + rest))) == Some((mode, name, sha, rest))
  {
    var after := name + [NUL] + (sha + rest);
    Cut(mode, SPACE, after);
    Cut(name, NUL, sha + rest);
    Behind(name, sha, rest);
  }

  /** Reading one entry leaves exactly the bytes behind it. */
  lemma ReadOne(mode: Bytes, m: Mode, name: Bytes, sha: Oid, rest: Bytes)
    requires SPACE !in mode && ModeFrom(mode) == Some(m) && NUL !in name
    ensures ReadEntry(mode + [SPACE] + (name + [NUL] + (sha + rest))) == Some((Item(m, name, sha), rest))
  {
    SplitOne(mode, name, sha, rest);
  }

  lemma EntryBytesShape(c: Child, rest: Bytes)
    ensures EntryBytes(c) + rest
         == Utf8(StoredMode(c.mode)) + [SPACE] + (Utf8(c.name) + [NUL] + (c.sha + rest))
  {
    HeadShape(StoredMode(c.mode), c.name);
  }

  lemma HeadShape(mode: string, name: string)
    ensures EntryHead(mode, name) == Utf8(mode) + [SPACE] + Utf8(name) + [NUL]
  {
    Utf8Parts(mode, ' ', name, '\0');
    assert mode + " " + name + "\0" == mode + [' '] + name + ['\0'];
  }

  lemma ParseEntry(c: Child, rest: Bytes, items: seq<Item>)
    requires ValidName(c.name) && Parses(rest, items)
    ensures Parses(EntryBytes(c) + rest, [ItemOf(c)] + items)
  {
    Utf8Ascii(c.name, '\0');
    ModeRoundTrip(c.mode);
    EntryBytesShape(c, rest);
    ReadOne(Utf8(StoredMode(c.mode)), c.mode, Utf8(c.name), c.sha, rest);
  }

  /** A payload reads back as exactly the entries it was made from. */
  lemma {:induction false} PayloadRoundTrip(cs: seq<Child>)
    requires ValidChildren(cs)
    ensures Parses(Payload(cs), Items(cs))
    decreases |cs|
  {
    ItemsCons(cs);
    if cs != [] {
      PayloadRoundTrip(cs[1..]);
      ParseEntry(cs[0], Payload(cs[1..]), Items(cs[1..]));
    }
  }

  lemma ItemsCons(cs: seq<Child>)
    ensures Items(cs) == if cs == [] then [] else [ItemOf(cs[0])] + Items(cs[1..])
  {
  }

  /** Unique decodability: two entry lists with the same payload are the same list. */
  lemma PayloadInjective(a: seq<Child>, b: seq<Child>)
    requires ValidChildren(a) && ValidChildren(b)
    requires Payload(a) == Payload(b)
    ensures a == b
  {
    PayloadRoundTrip(a);
    PayloadRoundTrip(b);
    assert |a| == |Items(a)| == |b|;
    forall i | 0 <= i < |a|
      ensures a[i] == b[i]
    {
      assert Items(a)[i] == Items(b)[i];
      Utf8Injective(a[i].name, b[i].name);
    }
  }

  /** The bytes Git has for the mode of an entry: the octal file mode without a leading zero. */
  function GitMode(m: Mode): Bytes {
    match m
    case Regular => [0x31, 0x30, 0x30, 0x36, 0x34, 0x34]
    case Executable => [0x31, 0x30, 0x30, 0x37, 0x35, 0x35]
    case Symlink => [0x31, 0x32, 0x30, 0x30, 0x30, 0x30]
    case Directory => [0x34, 0x30, 0x30, 0x30, 0x30]
  }

  lemma ModeBytesAre(m: Mode)
    ensures Utf8(StoredMode(m)) == GitMode(m)
  {
    assert ModeText(m) == "040000" <==> m.Directory? by {
      assert ModeText(Regular)[0] == ModeText(Executable)[0] == ModeText(Symlink)[0] == '1';
    }
    AsciiBytes(StoredMode(m));
  }

  lemma EntryBytesAre(c: Child)
    ensures EntryBytes(c) == GitMode(c.mode) + [32] + Utf8(c.name) + [0] + c.sha
  {
    ModeBytesAre(c.mode);
    HeadShape(StoredMode(c.mode), c.name);
  }

  /** A payload is its entries one behind the other, each with Git's mode, a space, its name, a NUL and its raw id. */
  lemma PayloadBytes(cs: seq<Child>, k: nat)
    requires k < |cs|
    ensures var c := cs[k];
      Payload(cs) == Payload(cs[..k]) + (GitMode(c.mode) + [32] + Utf8(c.name) + [0] + c.sha) + Payload(cs[k + 1..])
    ensures Payload([]) == []
  {
    EntryBytesAre(cs[k]);
    PayloadConcat(cs[..k], cs[k..]);
    assert cs == cs[..k] + cs[k..] && cs[k..][1..] == cs[k + 1..];
    ConcatAssociates(Payload(cs[..k]), EntryBytes(cs[k]), Payload(cs[k + 1..]));
  }

  // ---------------------------------------------------------------- tree order

  /** A directory compares as if its name ended in `/`. */
  function SortKey(c: Child): Bytes {
    Utf8(if ModeText(c.mode) == "040000" then c.name + "/" else c.name)
  }

  function SortTreeEntries(cs: seq<Child>): seq<Child> { SortOn(SortKey, cs) }

  lemma SortKeyBytes(c: Child)
    requires ValidName(c.name)
    ensures SortKey(c) == Utf8(c.name) + if c.mode.Directory? then [SLASH] else []
    ensures SLASH !in Utf8(c.name)
  {
    assert ModeText(c.mode) == "040000" <==> c.mode.Directory? by {
      assert ModeText(Regular)[0] == ModeText(Executable)[0] == ModeText(Symlink)[0] == '1';
    }
    EncodeConcat(Utf8Char, c.name, "/");
    assert "/"[1..] == "";
    Utf8Ascii(c.name, '/');
  }

  lemma SlashEndsAName(a: Bytes, b: Bytes)
    requires SLASH !in b
    ensures !(a + [SLASH] <= b)
    ensures a + [SLASH] <= b + [SLASH] ==> a == b
  {
    var k, l := a + [SLASH], b + [SLASH];
    assert k[|a|] == SLASH;
    assert forall j | 0 <= j < |b| :: l[j] == b[j] != SLASH;
    assert k <= l && |a| == |b| ==> k[..|a|] == l[..|a|];
    assert k[..|a|] == a && l[..|b|] == b;
  }

  /** Every path below an earlier entry comes before every path below a later one. */
  lemma TreeOrderIsPathOrder(c: Child, d: Child, x: Bytes, y: Bytes)
    requires ValidName(c.name) && ValidName(d.name)
    requires LexLess(SortKey(c), SortKey(d))
    requires !c.mode.Directory? ==> x == []
    ensures LexLess(SortKey(c) + x, SortKey(d) + y)
  {
    SortKeyBytes(c);
    SortKeyBytes(d);
    LexTrichotomy(SortKey(c), SortKey(d));
    var k, l := SortKey(c), SortKey(d);
    SlashEndsAName(Utf8(c.name), Utf8(d.name));
    LexExtend(k, l, x, y);
  }

  // ---------------------------------------------------------------- the writer

  /** The object directory after storing one frame: ids already present are left alone. */
  function Stored(objects: map<Oid, Bytes>, id: Oid, frame: Bytes): map<Oid, Bytes> {
    if id in objects then objects else objects[id := frame]
  }

  class LooseObjectWriter {
    const hash: Bytes -> Oid
    /** The object directory: what each loose object holds once inflated. */
    var objects: map<Oid, Bytes>
    /** Ids this process already wrote or found. */
    var written: set<Oid>

    ghost predicate Valid()
      reads this
    {
      written <= objects.Keys
    }

    constructor (hash: Bytes -> Oid, objects: map<Oid, Bytes>)
      ensures Valid() && this.hash == hash && this.objects == objects
    {
      this.hash, this.objects, this.written := hash, objects, {};
    }

    method Write(kind: string, payload: Bytes) returns (id: Oid)
      requires Valid()
      modifies this
      ensures Valid()
      ensures id == hash(Frame(kind, payload)) && id in objects
      ensures objects == Stored(old(objects), id, Frame(kind, payload))
      ensures forall o | o in old(objects) :: o in objects && objects[o] == old(objects)[o]
      ensures id !in old(objects) ==> objects == old(objects)[id := Frame(kind, payload)]
    {
      id := hash(Frame(kind, payload));
      if id in written { return; }
      if id in objects {
        written := written + {id};
        return;
      }
      var framed := Utf8(kind + " " + Decimal(|payload|) + "\0") + payload;
      objects := objects[id := framed];
      written := written + {id};
    }
  }
}
