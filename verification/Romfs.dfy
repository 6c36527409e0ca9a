/** The ROM file system image of mkromfs.py: directory entries with absolute addresses, each
    directory followed by the names and contents of its children, depth first.
 */
module Romfs {
  import opened Wrappers
  import Bits

  type byte = x: int | 0 <= x < 256

  datatype Node =
    | File(name: seq<byte>, data: seq<byte>)
    | Folder(name: seq<byte>, children: seq<Node>)

  const WORD: nat := 0x1_0000_0000

  // --------------------------------------------------------------------------------
  // Layout
  // --------------------------------------------------------------------------------

  /** The `k` low bytes of `v`, lowest first, and back. */
  function Digits(v: nat, k: nat): (r: seq<byte>)
    ensures |r| == k
    decreases k
  {
    if k == 0 then [] else [v % 256] + Digits(v / 256, k - 1)
  }

  function Value(b: seq<byte>): nat {
    if b == [] then 0 else (b[0] as int) + 256 * Value(b[1..])
  }

  lemma {:induction false} DigitsRoundTrip(v: nat, k: nat)
    requires v < Bits.Power256(k)
    ensures Value(Digits(v, k)) == v
    decreases k
  {
    if k > 0 {
      DigitsRoundTrip(v / 256, k - 1);
      assert Digits(v, k)[1..] == Digits(v / 256, k - 1);
    }
  }

  /** 32-bit little-endian words, one after the other */
  function Words(vs: seq<nat>): (r: seq<byte>)
    ensures |r| == 4 * |vs|
  {
    if vs == [] then [] else Digits(vs[0], 4) + Words(vs[1..])
  }

  function Zeros(n: nat): (r: seq<byte>)
    ensures |r| == n && forall i :: 0 <= i < n ==> r[i] == 0
  {
    seq(n, _ => 0)
  }

  /** `bin_name`: at least one zero byte, up to a multiple of four */
  function Padded(name: seq<byte>): (r: seq<byte>)
    ensures name + [0] <= r
  {
    name + Zeros(4 - |name| % 4)
  }

  function Aligned(data: seq<byte>): (r: seq<byte>)
    ensures data <= r
  {
    if |data| % 4 != 0 then data + Zeros(4 - |data| % 4) else data
  }

  function Kind(n: Node): nat {
    if n.File? then 0 else 1
  }

  function EntrySize(n: Node): nat {
    match n
    case File(_, data) => |data|
    case Folder(_, children) => |children|
  }

  function Dirent(n: Node, nameAddr: nat, dataAddr: nat): (r: seq<byte>)
    ensures |r| == 16
  {
    Words([Kind(n), nameAddr, dataAddr, EntrySize(n)])
  }

  /** How much room `n` directory entries take, in a form that keeps multiplication out of the
      proofs below. */
  function Span(n: nat): nat {
    if n == 0 then 0 else 16 + Span(n - 1)
  }

  lemma {:induction false} SpanIs(n: nat)
    ensures Span(n) == 16 * n
  {
    if n > 0 { SpanIs(n - 1); }
  }

  /** The bytes of a node that is placed at `addr`. */
  function Bytes(n: Node, addr: nat): seq<byte>
    decreases n, 0
  {
    match n
    case File(_, data) => data
    case Folder(_, children) =>
      var p := addr + Span(|children|);
      Entries(children, p) + Payload(children, p)
  }

  /** The directory entries of `cs` whose names and contents start at `addr`. */
  function Entries(cs: seq<Node>, addr: nat): (r: seq<byte>)
    ensures |r| == Span(|cs|)
    decreases cs
  {
    if cs == [] then []
    else Dirent(cs[0], addr, DataAddr(cs[0], addr)) + Entries(cs[1..], NextAddr(cs[0], addr))
  }

  function Payload(cs: seq<Node>, addr: nat): seq<byte>
    decreases cs
  {
    if cs == [] then []
    else Padded(cs[0].name) + Aligned(Bytes(cs[0], DataAddr(cs[0], addr))) + Payload(cs[1..], NextAddr(cs[0], addr))
  }

  /** Divisible by four, in a form that keeps division out of the proofs below. */
  ghost predicate Quad(a: nat) {
    a == 0 || (a >= 4 && Quad(a - 4))
  }

  lemma {:induction false} QuadMeans(a: nat)
    ensures Quad(a) <==> a % 4 == 0
  {
    if a >= 4 { QuadMeans(a - 4); }
  }

  lemma QuadSum(a: nat, b: nat)
    requires Quad(a) && Quad(b)
    ensures Quad(a + b)
  {
    QuadMeans(a);
    QuadMeans(b);
    QuadMeans(a + b);
  }

  lemma QuadStep(a: nat)
    requires Quad(a)
    ensures Quad(a + 16) && Quad(a + 20)
  {
    QuadMeans(a);
    QuadMeans(a + 16);
    QuadMeans(a + 20);
  }

  lemma {:induction false} QuadEntries(n: nat)
    ensures Quad(Span(n))
  {
    if n > 0 {
      QuadEntries(n - 1);
      QuadStep(Span(n - 1));
      assert Span(n - 1) + 16 == Span(n);
    }
  }

  lemma PaddedLength(name: seq<byte>)
    ensures Quad(|Padded(name)|) && |Padded(name)| > |name|
  {
    QuadMeans(|Padded(name)|);
  }

  lemma AlignedLength(data: seq<byte>)
    ensures Quad(|Aligned(data)|)
  {
    QuadMeans(|Aligned(data)|);
  }

  function DataAddr(n: Node, addr: nat): nat {
    addr + |Padded(n.name)|
  }

  function NextAddr(n: Node, addr: nat): nat
    decreases n, 1
  {
    DataAddr(n, addr) + |Aligned(Bytes(n, DataAddr(n, addr)))|
  }

  /** Every value that is packed into a word has room there; otherwise packing fails. */
  ghost predicate Fits(n: Node, addr: nat)
    decreases n
  {
    n.Folder? ==> AllFit(n.children, addr + Span(|n.children|))
  }

  ghost predicate AllFit(cs: seq<Node>, addr: nat)
    decreases cs
  {
    cs != [] ==>
      && addr < WORD && DataAddr(cs[0], addr) < WORD && EntrySize(cs[0]) < WORD
      && Fits(cs[0], DataAddr(cs[0], addr)) && AllFit(cs[1..], NextAddr(cs[0], addr))
  }

  // --------------------------------------------------------------------------------
  // Reading an image that is mapped at `base`
  // --------------------------------------------------------------------------------

  /** The image has `b` at address `a`. */
  ghost predicate Holds(img: seq<byte>, base: nat, a: nat, b: seq<byte>) {
    Inside(img, base, a, |b|) && forall k :: 0 <= k < |b| ==> img[a - base + k] == b[k]
  }

  ghost predicate Inside(img: seq<byte>, base: nat, a: nat, n: nat) {
    base <= a && a - base + n <= |img|
  }

  /** Following the addresses stored in the entry at `a` finds the kind, name, size and contents
      of `n`, at addresses divisible by four. */
  ghost predicate Shows(img: seq<byte>, base: nat, a: nat, n: Node)
    decreases n, 1
  {
    && a % 4 == 0
    && exists name: nat, data: nat :: EntryAt(img, base, a, n, name, data) && ShowsContents(img, base, data, n)
  }

  /** The entry at `a` gives the kind and size of `n` and the address of its name; the data
      address is `data`. */
  ghost predicate EntryAt(img: seq<byte>, base: nat, a: nat, n: Node, name: nat, data: nat) {
    && name < WORD && data < WORD && EntrySize(n) < WORD && Holds(img, base, a, Dirent(n, name, data))
    && name % 4 == 0 && data % 4 == 0 && Holds(img, base, name, n.name + [0])
  }

  ghost predicate ShowsContents(img: seq<byte>, base: nat, a: nat, n: Node)
    decreases n, 0
  {
    match n
    case File(_, data) => Holds(img, base, a, data)
    case Folder(_, children) => forall i :: 0 <= i < |children| ==> Shows(img, base, a + Span(i), children[i])
  }

  lemma HoldsSplit(img: seq<byte>, base: nat, a: nat, x: seq<byte>, y: seq<byte>)
    requires Holds(img, base, a, x + y)
    ensures Holds(img, base, a, x) && Holds(img, base, a + |x|, y)
  {
    forall k | 0 <= k < |x| ensures img[a - base + k] == x[k] { assert (x + y)[k] == x[k]; }
    forall k | 0 <= k < |y| ensures img[a + |x| - base + k] == y[k] { assert (x + y)[|x| + k] == y[k]; }
  }

  lemma HoldsPrefix(img: seq<byte>, base: nat, a: nat, x: seq<byte>, whole: seq<byte>)
    requires Holds(img, base, a, whole) && x <= whole
    ensures Holds(img, base, a, x)
  {
    assert whole == x + whole[|x|..];
    HoldsSplit(img, base, a, x, whole[|x|..]);
  }

  lemma EntryShows(img: seq<byte>, base: nat, a: nat, n: Node, nameAddr: nat, dataAddr: nat)
    requires Holds(img, base, a, Dirent(n, nameAddr, dataAddr))
    requires nameAddr < WORD && dataAddr < WORD && EntrySize(n) < WORD
    requires Quad(a) && Quad(nameAddr) && Quad(dataAddr)
    requires Holds(img, base, nameAddr, Padded(n.name)) && ShowsContents(img, base, dataAddr, n)
    ensures Shows(img, base, a, n)
  {
    QuadMeans(a);
    QuadMeans(nameAddr);
    QuadMeans(dataAddr);
    HoldsPrefix(img, base, nameAddr, n.name + [0], Padded(n.name));
    assert EntryAt(img, base, a, n, nameAddr, dataAddr);
  }

  /** A node's bytes at its address show its contents. */
  lemma {:induction false} BytesShow(img: seq<byte>, base: nat, a: nat, n: Node)
    requires Holds(img, base, a, Bytes(n, a)) && Fits(n, a) && Quad(a)
    ensures ShowsContents(img, base, a, n)
    decreases n
  {
    if n.Folder? {
      var p := FolderParts(img, base, a, n);
      EntriesShow(img, base, a, p, n.children);
      ChildrenShow(img, base, a, n);
    }
  }

  lemma FolderParts(img: seq<byte>, base: nat, a: nat, n: Node) returns (p: nat)
    requires n.Folder? && Holds(img, base, a, Bytes(n, a)) && Fits(n, a) && Quad(a)
    ensures Quad(p) && AllFit(n.children, p)
    ensures Holds(img, base, a, Entries(n.children, p)) && Holds(img, base, p, Payload(n.children, p))
  {
    p := a + Span(|n.children|);
    assert Quad(p) by {
      QuadEntries(|n.children|);
      QuadSum(a, Span(|n.children|));
    }
    TwoPieces(img, base, a, p, Entries(n.children, p), Payload(n.children, p));
  }

  lemma TwoPieces(img: seq<byte>, base: nat, a: nat, p: nat, entries: seq<byte>, payload: seq<byte>)
    requires Holds(img, base, a, entries + payload) && p == a + |entries|
    ensures Holds(img, base, a, entries) && Holds(img, base, p, payload)
  {
    HoldsSplit(img, base, a, entries, payload);
  }

  lemma ChildrenShow(img: seq<byte>, base: nat, a: nat, n: Node)
    requires n.Folder? && forall i :: 0 <= i < |n.children| ==> ShowsNth(img, base, a, n.children, i)
    ensures ShowsContents(img, base, a, n)
  {
    forall i | 0 <= i < |n.children| ensures Shows(img, base, a + Span(i), n.children[i]) {
      assert ShowsNth(img, base, a, n.children, i);
    }
  }

  ghost predicate ShowsNth(img: seq<byte>, base: nat, a: nat, cs: seq<Node>, i: nat)
    requires i < |cs|
  {
    Shows(img, base, a + Span(i), cs[i])
  }

  lemma Pieces(
    img: seq<byte>, base: nat, a: nat, p: nat, d: nat, q: nat,
    entry: seq<byte>, entries: seq<byte>, name: seq<byte>, data: seq<byte>, bytes: seq<byte>, payload: seq<byte>)
    requires Holds(img, base, a, entry + entries) && Holds(img, base, p, name + data + payload) && bytes <= data
    requires |entry| == 16 && d == p + |name| && q == d + |data|
    ensures Holds(img, base, a, entry) && Holds(img, base, a + 16, entries) && Holds(img, base, p, name)
    ensures Holds(img, base, d, bytes) && Holds(img, base, q, payload)
  {
    HoldsSplit(img, base, a, entry, entries);
    HoldsSplit(img, base, p, name + data, payload);
    HoldsSplit(img, base, p, name, data);
    HoldsPrefix(img, base, d, bytes, data);
  }

  /** Where the pieces of the first child are, and what is left for the others. */
  lemma FirstChild(img: seq<byte>, base: nat, a: nat, p: nat, cs: seq<Node>) returns (d: nat, q: nat)
    requires cs != [] && Holds(img, base, a, Entries(cs, p)) && Holds(img, base, p, Payload(cs, p)) && AllFit(cs, p)
    requires Quad(p)
    ensures Holds(img, base, a, Dirent(cs[0], p, d)) && Holds(img, base, p, Padded(cs[0].name))
    ensures Holds(img, base, d, Bytes(cs[0], d)) && Fits(cs[0], d) && Quad(d)
    ensures Holds(img, base, a + 16, Entries(cs[1..], q)) && Holds(img, base, q, Payload(cs[1..], q))
    ensures AllFit(cs[1..], q) && Quad(q) && p < WORD && d < WORD && EntrySize(cs[0]) < WORD
  {
    d, q := DataAddr(cs[0], p), NextAddr(cs[0], p);
    var name, bytes := Padded(cs[0].name), Bytes(cs[0], d);
    var data := Aligned(bytes);
    Pieces(img, base, a, p, d, q, Dirent(cs[0], p, d), Entries(cs[1..], q), name, data, bytes, Payload(cs[1..], q));
    Addresses(cs[0], p);
  }

  lemma Addresses(n: Node, p: nat)
    requires Quad(p)
    ensures Quad(DataAddr(n, p)) && Quad(NextAddr(n, p))
  {
    PaddedLength(n.name);
    AlignedLength(Bytes(n, DataAddr(n, p)));
    QuadSum(p, |Padded(n.name)|);
    QuadSum(DataAddr(n, p), |Aligned(Bytes(n, DataAddr(n, p)))|);
  }

  lemma {:induction false} EntriesShow(img: seq<byte>, base: nat, a: nat, p: nat, cs: seq<Node>)
    requires Holds(img, base, a, Entries(cs, p)) && Holds(img, base, p, Payload(cs, p)) && AllFit(cs, p)
    requires Quad(a) && Quad(p)
    ensures forall i :: 0 <= i < |cs| ==> ShowsNth(img, base, a, cs, i)
    decreases cs
  {
    if cs != [] {
      var d, q := FirstChild(img, base, a, p, cs);
      assert Shows(img, base, a, cs[0]) by {
        BytesShow(img, base, d, cs[0]);
        EntryShows(img, base, a, cs[0], p, d);
      }
      var b, rest := a + 16, cs[1..];
      assert forall i :: 0 <= i < |rest| ==> ShowsNth(img, base, b, rest, i) by {
        QuadStep(a);
        EntriesShow(img, base, b, q, rest);
      }
      ConsShows(img, base, a, cs);
    }
  }

  lemma ConsShows(img: seq<byte>, base: nat, a: nat, cs: seq<Node>)
    requires cs != [] && Shows(img, base, a, cs[0])
    requires var rest, b := cs[1..], a + 16; forall i :: 0 <= i < |rest| ==> ShowsNth(img, base, b, rest, i)
    ensures forall i :: 0 <= i < |cs| ==> ShowsNth(img, base, a, cs, i)
  {
    forall i | 0 <= i < |cs| ensures ShowsNth(img, base, a, cs, i) {
      if i > 0 { assert ShowsNth(img, base, a + 16, cs[1..], i - 1) && cs[1..][i - 1] == cs[i]; }
    }
  }

  // --------------------------------------------------------------------------------
  // The whole image
  // --------------------------------------------------------------------------------

  const ROOT: seq<byte> := [47]

  function Image(tree: Node, base: nat): seq<byte>
    requires tree.Folder?
  {
    Dirent(tree, base + 16, base + 20) + Padded(ROOT) + Bytes(tree, base + 20)
  }

  ghost predicate ImageFits(tree: Node, base: nat)
    requires tree.Folder?
  {
    base + 20 < WORD && |tree.children| < WORD && Fits(tree, base + 20)
  }

  /** Following the stored addresses from the entry at the base recovers the whole tree, under
      the name `/`. */
  lemma ImageShowsTree(tree: Node, base: nat)
    requires tree.Folder? && base % 4 == 0 && ImageFits(tree, base)
    ensures Shows(Image(tree, base), base, base, Folder(ROOT, tree.children))
  {
    QuadMeans(base);
    ImagePieces(Image(tree, base), base, Dirent(tree, base + 16, base + 20), Padded(ROOT), Bytes(tree, base + 20));
    QuadStep(base);
    RootShows(Image(tree, base), base, base + 16, base + 20, tree);
  }

  lemma RootShows(img: seq<byte>, base: nat, name: nat, data: nat, tree: Node)
    requires tree.Folder? && Quad(base) && Quad(name) && Quad(data) && name < WORD && data < WORD
    requires |tree.children| < WORD && Fits(tree, data)
    requires Holds(img, base, base, Dirent(tree, name, data)) && Holds(img, base, name, Padded(ROOT))
    requires Holds(img, base, data, Bytes(tree, data))
    ensures Shows(img, base, base, Folder(ROOT, tree.children))
  {
    var root := Folder(ROOT, tree.children);
    assert ShowsContents(img, base, data, root) by {
      BytesShow(img, base, data, tree);
      Renamed(img, base, data, tree, root);
    }
    assert Dirent(tree, name, data) == Dirent(root, name, data);
    EntryShows(img, base, base, root, name, data);
  }

  lemma Renamed(img: seq<byte>, base: nat, a: nat, m: Node, n: Node)
    requires m.Folder? && n.Folder? && m.children == n.children && ShowsContents(img, base, a, m)
    ensures ShowsContents(img, base, a, n)
  {
  }

  lemma ImagePieces(img: seq<byte>, base: nat, d: seq<byte>, name: seq<byte>, bytes: seq<byte>)
    requires img == d + name + bytes && |d| == 16 && |name| == 4
    ensures Holds(img, base, base, d) && Holds(img, base, base + 16, name) && Holds(img, base, base + 20, bytes)
  {
    assert Holds(img, base, base, img);
    HoldsSplit(img, base, base, d + name, bytes);
    HoldsSplit(img, base, base, d, name);
  }

  /** Names as C strings: no zero byte. */
  ghost predicate Clean(n: Node)
    decreases n
  {
    0 !in n.name && (n.Folder? ==> forall i :: 0 <= i < |n.children| ==> Clean(n.children[i]))
  }

  lemma NameUnique(img: seq<byte>, base: nat, a: nat, x: seq<byte>, y: seq<byte>)
    requires Holds(img, base, a, x + [0]) && Holds(img, base, a, y + [0]) && 0 !in x && 0 !in y
    ensures x == y
  {
    var m := img[a - base..];
    assert forall i :: 0 <= i < |x| ==> m[i] == (x + [0])[i] == x[i];
    assert forall i :: 0 <= i < |y| ==> m[i] == (y + [0])[i] == y[i];
    assert m[|x|] == (x + [0])[|x|] && m[|y|] == (y + [0])[|y|];
  }

  lemma {:induction false} WordsInjective(vs: seq<nat>, ws: seq<nat>)
    requires |vs| == |ws| && Words(vs) == Words(ws)
    requires forall i :: 0 <= i < |vs| ==> vs[i] < WORD && ws[i] < WORD
    ensures vs == ws
  {
    if vs != [] {
      var x, y := Digits(vs[0], 4), Digits(ws[0], 4);
      assert Words(vs)[..4] == x && Words(ws)[..4] == y;
      assert Words(vs)[4..] == Words(vs[1..]) && Words(ws)[4..] == Words(ws[1..]);
      WordsInjective(vs[1..], ws[1..]);
      PowerOfWord();
      DigitsRoundTrip(vs[0], 4);
      DigitsRoundTrip(ws[0], 4);
      assert vs == [vs[0]] + vs[1..] && ws == [ws[0]] + ws[1..];
    }
  }

  lemma PowerOfWord()
    ensures Bits.Power256(4) == WORD
  {
    assert Bits.Power256(2) == 65536;
  }

  lemma EntryUnique(img: seq<byte>, base: nat, a: nat, m: Node, n: Node, name: nat, data: nat, name': nat, data': nat)
    requires EntryAt(img, base, a, m, name, data) && EntryAt(img, base, a, n, name', data') && Clean(m) && Clean(n)
    ensures Kind(m) == Kind(n) && m.name == n.name && EntrySize(m) == EntrySize(n) && data == data'
  {
    var x, y := Dirent(m, name, data), Dirent(n, name', data');
    assert forall k :: 0 <= k < 16 ==> x[k] == img[a - base + k] == y[k];
    assert x == y;
    WordsInjective([Kind(m), name, data, EntrySize(m)], [Kind(n), name', data', EntrySize(n)]);
    Four(Kind(m), name, data, EntrySize(m), Kind(n), name', data', EntrySize(n));
    NameUnique(img, base, name, m.name, n.name);
  }

  lemma Four(a: nat, b: nat, c: nat, d: nat, a': nat, b': nat, c': nat, d': nat)
    requires [a, b, c, d] == [a', b', c', d']
    ensures a == a' && b == b' && c == c' && d == d'
  {
    var s, t := [a, b, c, d], [a', b', c', d'];
    assert s[0] == t[0] && s[1] == t[1] && s[2] == t[2] && s[3] == t[3];
  }

  /** An entry shows at most one tree, so the image determines what went into it. */
  lemma {:induction false} ShowsUnique(img: seq<byte>, base: nat, a: nat, m: Node, n: Node)
    requires Shows(img, base, a, m) && Shows(img, base, a, n) && Clean(m) && Clean(n)
    ensures m == n
    decreases m, 1
  {
    var name: nat, data: nat :| EntryAt(img, base, a, m, name, data) && ShowsContents(img, base, data, m);
    var name': nat, data': nat :| EntryAt(img, base, a, n, name', data') && ShowsContents(img, base, data', n);
    EntryUnique(img, base, a, m, n, name, data, name', data');
    ContentsUnique(img, base, data, m, n);
  }

  lemma {:induction false} ContentsUnique(img: seq<byte>, base: nat, a: nat, m: Node, n: Node)
    requires ShowsContents(img, base, a, m) && ShowsContents(img, base, a, n) && Clean(m) && Clean(n)
    requires Kind(m) == Kind(n) && m.name == n.name && EntrySize(m) == EntrySize(n)
    ensures m == n
    decreases m, 0
  {
    if m.File? {
      assert forall k :: 0 <= k < |m.data| ==> m.data[k] == img[a - base + k] == n.data[k];
      assert m.data == n.data;
    } else {
      forall i | 0 <= i < |m.children| ensures m.children[i] == n.children[i] {
        assert Shows(img, base, a + Span(i), m.children[i]) && Shows(img, base, a + Span(i), n.children[i]);
        ShowsUnique(img, base, a + Span(i), m.children[i], n.children[i]);
      }
      assert m.children == n.children;
    }
  }

  /** An image that ends below the 32-bit limit can always be built. */
  lemma {:induction false} SmallFits(n: Node, a: nat)
    requires a + |Bytes(n, a)| < WORD
    ensures Fits(n, a)
    decreases n
  {
    if n.Folder? { SmallAllFit(n.children, a + Span(|n.children|)); }
  }

  lemma {:induction false} SmallAllFit(cs: seq<Node>, p: nat)
    requires p + |Payload(cs, p)| < WORD
    ensures AllFit(cs, p)
    decreases cs
  {
    if cs != [] {
      var d := DataAddr(cs[0], p);
      assert |Bytes(cs[0], d)| <= |Aligned(Bytes(cs[0], d))|;
      SmallFits(cs[0], d);
      SmallAllFit(cs[1..], NextAddr(cs[0], p));
      SpanIs(EntrySize(cs[0]));
    }
  }

  // --------------------------------------------------------------------------------
  // Building
  // --------------------------------------------------------------------------------

  /** `struct.pack`, which refuses what does not fit 32 bits */
  function Pack(n: Node, nameAddr: nat, dataAddr: nat): Option<seq<byte>> {
    if nameAddr < WORD && dataAddr < WORD && EntrySize(n) < WORD then Some(Dirent(n, nameAddr, dataAddr)) else None
  }

  /** `bin_data` of a file or folder placed at `baseAddr` */
  method BinData(n: Node, baseAddr: nat) returns (r: Option<seq<byte>>)
    ensures r.Some? <==> Fits(n, baseAddr)
    ensures r.Some? ==> r.value == Bytes(n, baseAddr)
    decreases n, 0
  {
    if n.File? {
      return Some(n.data);
    }
    var parts := FolderData(n.children, baseAddr + Span(|n.children|));
    if parts.None? {
      return None;
    }
    r := Some(parts.value.0 + parts.value.1);
  }

  /** The loop of `bin_data` over the children of a folder, with names and contents from `p` on */
  method FolderData(cs: seq<Node>, p: nat) returns (r: Option<(seq<byte>, seq<byte>)>)
    ensures r.Some? <==> AllFit(cs, p)
    ensures r.Some? ==> r.value == (Entries(cs, p), Payload(cs, p))
    decreases cs
  {
    var vLen: nat, i := p, 0;
    var entries: seq<byte>, payload: seq<byte> := [], [];
    assert cs[0..] == cs;
    while i < |cs|
      invariant i <= |cs| && Rest(cs, p, i, vLen, entries, payload)
    {
      RestStep(cs, p, i, vLen, entries, payload);
      var child := ChildData(cs[i], vLen);
      if child.None? {
        assert !AllFit(cs, p);
        return None;
      }
      ghost var next := NextAddr(cs[i], vLen);
      vLen := vLen + |child.value.1|;
      assert vLen == next;
      entries := entries + child.value.0;
      payload := payload + child.value.1;
      i := i + 1;
    }
    RestDone(cs, p, vLen, entries, payload);
    r := Some((entries, payload));
  }

  /** What one child adds to the entries and to the payload of its folder */
  method ChildData(c: Node, nameAddr: nat) returns (r: Option<(seq<byte>, seq<byte>)>)
    ensures var d := DataAddr(c, nameAddr);
      && (r.Some? <==> Fits(c, d) && Pack(c, nameAddr, d).Some?)
      && (r.Some? ==> r.value == (Dirent(c, nameAddr, d), Padded(c.name) + Aligned(Bytes(c, d))))
    decreases c, 1
  {
    var name := Padded(c.name);
    var dataAddr := nameAddr + |name|;
    var data := BinData(c, dataAddr);
    var entry := Pack(c, nameAddr, dataAddr);
    if data.None? || entry.None? {
      return None;
    }
    r := Some((entry.value, name + Aligned(data.value)));
  }

  /** What is built so far and what children from `i` on will add make up the whole. */
  ghost predicate Rest(cs: seq<Node>, p: nat, i: nat, vLen: nat, entries: seq<byte>, payload: seq<byte>)
    requires i <= |cs|
  {
    && Entries(cs, p) == entries + Entries(cs[i..], vLen)
    && Payload(cs, p) == payload + Payload(cs[i..], vLen)
    && (AllFit(cs, p) <==> AllFit(cs[i..], vLen))
  }

  lemma RestDone(cs: seq<Node>, p: nat, vLen: nat, entries: seq<byte>, payload: seq<byte>)
    requires Rest(cs, p, |cs|, vLen, entries, payload)
    ensures AllFit(cs, p) && entries == Entries(cs, p) && payload == Payload(cs, p)
  {
    assert cs[|cs|..] == [];
  }

  lemma RestStep(cs: seq<Node>, p: nat, i: nat, vLen: nat, entries: seq<byte>, payload: seq<byte>)
    requires i < |cs| && Rest(cs, p, i, vLen, entries, payload)
    ensures var c, d := cs[i], DataAddr(cs[i], vLen);
      && (AllFit(cs, p) ==> Fits(c, d) && Pack(c, vLen, d).Some?)
      && (Fits(c, d) && Pack(c, vLen, d).Some? ==>
            Rest(cs, p, i + 1, NextAddr(c, vLen), entries + Dirent(c, vLen, d),
                 payload + (Padded(c.name) + Aligned(Bytes(c, d)))))
  {
    var c, d, q := cs[i], DataAddr(cs[i], vLen), NextAddr(cs[i], vLen);
    var tail := cs[i..];
    assert tail[0] == c && tail[1..] == cs[i + 1..];
    Append(entries, Dirent(c, vLen, d), Entries(cs[i + 1..], q));
    Append(payload, Padded(c.name) + Aligned(Bytes(c, d)), Payload(cs[i + 1..], q));
  }

  lemma Append(x: seq<byte>, y: seq<byte>, z: seq<byte>)
    ensures x + (y + z) == (x + y) + z
  {
  }

  /** `get_bin_data`: whenever it succeeds at an aligned address, the image shows the tree. */
  method GetBinData(tree: Node, baseAddr: nat) returns (r: Option<seq<byte>>)
    requires tree.Folder?
    ensures r.Some? <==> ImageFits(tree, baseAddr)
    ensures r.Some? ==> r.value == Image(tree, baseAddr)
    ensures r.Some? && baseAddr % 4 == 0 ==> Shows(r.value, baseAddr, baseAddr, Folder(ROOT, tree.children))
  {
    var entry := Pack(tree, baseAddr + 16, baseAddr + 20);
    if entry.None? {
      return None;
    }
    var data := BinData(tree, baseAddr + 20);
    if data.None? {
      return None;
    }
    if baseAddr % 4 == 0 { ImageShowsTree(tree, baseAddr); }
    r := Some(entry.value + Padded(ROOT) + data.value);
  }
}
