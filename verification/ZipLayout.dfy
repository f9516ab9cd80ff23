/** Archives as PKWARE's APPNOTE lays them out (sections 4.3.7, 4.3.12 and 4.3.16),
    entries stored or deflated, and the proof that the reader finds in them what was put in. */
module ZipLayout {
  import opened Bytes
  import opened ReadSeek
  import opened Zip

  /** How the bytes of an entry are kept: as they are, as a text of raw deflate, or in another way. */
  datatype Packing = Plain | Deflate(text: seq<byte>) | Method(number: nat, text: seq<byte>)

  /** An entry; what the reader does not look at is arbitrary: flags, times, checksums, the sizes in
      the local header, and a data descriptor after the data. */
  datatype Entry = Entry(
    name: seq<byte>, plain: seq<byte>, packing: Packing, localExtra: seq<byte>, centralExtra: seq<byte>,
    comment: seq<byte>, localMisc: seq<byte>, centralMisc: seq<byte>, descriptor: seq<byte>)

  /** The bytes of the entry in the archive. */
  function Packed(e: Entry): seq<byte> {
    if e.packing.Plain? then e.plain else e.packing.text
  }

  function MethodNumber(e: Entry): nat {
    match e.packing
    case Plain => 0
    case Deflate(_) => 8
    case Method(number, _) => number
  }

  predicate Fits(e: Entry) {
    && |e.name| < 0x1_0000 && |e.plain| < 0x1_0000_0000 && |Packed(e)| < 0x1_0000_0000
    && MethodNumber(e) < 0x1_0000 && (e.packing.Method? ==> e.packing.number != 0 && e.packing.number != 8)
    && |e.localExtra| < 0x1_0000 && |e.centralExtra| < 0x1_0000 && |e.comment| < 0x1_0000
    && |e.localMisc| == 20 && |e.centralMisc| == 22
  }

  function Le16(v: nat): (r: seq<byte>)
    requires v < 0x1_0000
    ensures |r| == 2
  {
    [v % 0x100, v / 0x100]
  }

  function Le32(v: nat): (r: seq<byte>)
    requires v < 0x1_0000_0000
    ensures |r| == 4
  {
    [v % 0x100, v / 0x100 % 0x100, v / 0x1_0000 % 0x100, v / 0x100_0000]
  }

  /** Local file header: versions and flags, the method, times, checksum and sizes, lengths. */
  function LocalHeader(e: Entry): (h: seq<byte>)
    requires Fits(e)
    ensures |h| == 30
  {
    [0x50, 0x4B, 3, 4] + e.localMisc[..4] + Le16(MethodNumber(e)) + e.localMisc[4..] +
      Le16(|e.name|) + Le16(|e.localExtra|)
  }

  function LocalRecord(e: Entry): seq<byte>
    requires Fits(e)
  {
    LocalHeader(e) + e.name + e.localExtra + Packed(e) + e.descriptor
  }

  function CentralHeader(e: Entry, offset: nat): (h: seq<byte>)
    requires Fits(e) && offset < 0x1_0000_0000
    ensures |h| == 46
  {
    [0x50, 0x4B, 1, 2] + e.centralMisc[..6] + Le16(MethodNumber(e)) + e.centralMisc[6..14] +
    Le32(|Packed(e)|) + Le32(|e.plain|) +
    Le16(|e.name|) + Le16(|e.centralExtra|) + Le16(|e.comment|) + e.centralMisc[14..] + Le32(offset)
  }

  function CentralRecord(e: Entry, offset: nat): seq<byte>
    requires Fits(e) && offset < 0x1_0000_0000
  {
    CentralHeader(e, offset) + e.name + e.centralExtra + e.comment
  }

  /** End record: disk numbers 0, the number of entries twice, size and offset of the directory, comment. */
  function EndRecord(n: nat, size: nat, offset: nat, comment: seq<byte>): seq<byte>
    requires n < 0x1_0000 && size < 0x1_0000_0000 && offset < 0x1_0000_0000 && |comment| < 0x1_0000
  {
    [0x50, 0x4B, 5, 6, 0, 0, 0, 0] + Le16(n) + Le16(n) + Le32(size) + Le32(offset) + Le16(|comment|) + comment
  }

  predicate AllFit(es: seq<Entry>) {
    forall i :: 0 <= i < |es| ==> Fits(es[i])
  }

  function Locals(es: seq<Entry>): seq<byte>
    requires AllFit(es)
  {
    if es == [] then [] else Locals(es[..|es| - 1]) + LocalRecord(es[|es| - 1])
  }

  /** The directory records of the entries from the `i`th on. */
  function Centrals(es: seq<Entry>, i: nat): seq<byte>
    requires AllFit(es) && i <= |es| && |Locals(es)| < 0xFFFF_FFFF
    decreases |es| - i
  {
    if i == |es| then []
    else
      PrefixShorter(es, i);
      CentralRecord(es[i], |Locals(es[..i])|) + Centrals(es, i + 1)
  }

  lemma {:induction false} PrefixShorter(es: seq<Entry>, i: nat)
    requires AllFit(es) && i <= |es|
    ensures |Locals(es[..i])| <= |Locals(es)|
    ensures exists tail :: Locals(es) == Locals(es[..i]) + tail
  {
    hide LocalRecord, Fits;
    if i == |es| {
      assert es[..i] == es && Locals(es) == Locals(es[..i]) + [];
    } else {
      var init := es[..|es| - 1];
      PrefixShorter(init, i);
      assert init[..i] == es[..i];
      var tail :| Locals(init) == Locals(init[..i]) + tail;
      assert Locals(es) == Locals(es[..i]) + (tail + LocalRecord(es[|es| - 1]));
    }
  }

  /** What the format asks of an archive without ZIP64. */
  predicate Writable(es: seq<Entry>, comment: seq<byte>) {
    && AllFit(es) && |es| < 0xFFFF && |Locals(es)| < 0xFFFF_FFFF
    && |Centrals(es, 0)| < 0x1_0000_0000 && |comment| < 0x1_0000
  }

  function Archive(es: seq<Entry>, comment: seq<byte>): seq<byte>
    requires Writable(es, comment)
  {
    Locals(es) + Centrals(es, 0) + EndRecord(|es|, |Centrals(es, 0)|, |Locals(es)|, comment)
  }

  // -- Reading numbers back ------------------------------------------------------------------

  lemma Le16Read(v: nat, pre: seq<byte>, post: seq<byte>)
    requires v < 0x1_0000
    ensures U16(pre + Le16(v) + post, |pre|) == v
  {
  }

  lemma Digits(v: nat)
    ensures v == v % 0x100 + v / 0x100 % 0x100 * 0x100 + v / 0x1_0000 % 0x100 * 0x1_0000 + v / 0x100_0000 * 0x100_0000
  {
    var w := v / 0x100;
    var x := w / 0x100;
    assert w == v / 0x100 && x == v / 0x1_0000 && x / 0x100 == v / 0x100_0000;
  }

  lemma Le32Read(v: nat, pre: seq<byte>, post: seq<byte>)
    requires v < 0x1_0000_0000
    ensures U32(pre + Le32(v) + post, |pre|) == v
  {
    Digits(v);
    var d := pre + Le32(v) + post;
    assert d[|pre|..|pre| + 4] == Le32(v);
    assert forall k :: 0 <= k < 4 ==> d[|pre| + k] == Le32(v)[k];
  }

  lemma Shifted(d: seq<byte>, p: nat, h: seq<byte>, k: nat)
    requires p + |h| <= |d| && d[p..p + |h|] == h
    ensures k + 2 <= |h| ==> U16(d, p + k) == U16(h, k)
    ensures k + 4 <= |h| ==> U32(d, p + k) == U32(h, k)
  {
    forall j | 0 <= j < |h|
      ensures d[p + j] == h[j]
    {
      assert d[p..p + |h|][j] == d[p + j];
    }
  }

  /** The first 28 bytes of a central header. */
  function CentralFront(e: Entry): seq<byte>
    requires Fits(e)
  {
    [0x50, 0x4B, 1, 2] + e.centralMisc[..6] + Le16(MethodNumber(e)) + e.centralMisc[6..14] +
    Le32(|Packed(e)|) + Le32(|e.plain|)
  }

  lemma FrontFields(e: Entry, rest: seq<byte>)
    requires Fits(e)
    ensures var h := CentralFront(e) + rest;
      && |CentralFront(e)| == 28 && U32(h, 0) == SIG_CENTRAL && U16(h, 10) == MethodNumber(e)
      && U32(h, 20) == |Packed(e)| && U32(h, 24) == |e.plain|
  {
    var h := CentralFront(e) + rest;
    assert h[0] == 0x50 && h[1] == 0x4B && h[2] == 1 && h[3] == 2;
    assert U32(h, 0) == SIG_CENTRAL;
    hide Packed, MethodNumber, U16, U32, Le16, Le32;
    var m := [0x50, 0x4B, 1, 2] + e.centralMisc[..6];
    var b := m + Le16(MethodNumber(e)) + e.centralMisc[6..14];
    var c := b + Le32(|Packed(e)|);
    Le32Read(|e.plain|, c, rest);
    assert h == c + Le32(|e.plain|) + rest;
    var u := Le32(|e.plain|) + rest;
    Le32Read(|Packed(e)|, b, u);
    assert h == b + Le32(|Packed(e)|) + u;
    var t := e.centralMisc[6..14] + (Le32(|Packed(e)|) + u);
    Le16Read(MethodNumber(e), m, t);
    assert h == m + Le16(MethodNumber(e)) + t;
  }

  lemma BackFields(e: Entry, offset: nat, d: seq<byte>)
    requires Fits(e) && offset < 0x1_0000_0000 && |d| == 28
    ensures var h :=
      d + Le16(|e.name|) + Le16(|e.centralExtra|) + Le16(|e.comment|) + e.centralMisc[14..] + Le32(offset);
      U16(h, 28) == |e.name| && U16(h, 30) == |e.centralExtra| && U16(h, 32) == |e.comment| && U32(h, 42) == offset
  {
    hide U16, U32, Le16, Le32;
    var h := d + Le16(|e.name|) + Le16(|e.centralExtra|) + Le16(|e.comment|) + e.centralMisc[14..] + Le32(offset);
    var f := d + Le16(|e.name|);
    var g := f + Le16(|e.centralExtra|);
    var k := g + Le16(|e.comment|) + e.centralMisc[14..];
    Le32Read(offset, k, []);
    assert h == k + Le32(offset) + [];
    var y := e.centralMisc[14..] + Le32(offset);
    Le16Read(|e.comment|, g, y);
    assert h == g + Le16(|e.comment|) + y;
    var x := Le16(|e.comment|) + y;
    Le16Read(|e.centralExtra|, f, x);
    assert h == f + Le16(|e.centralExtra|) + x;
    var w := Le16(|e.centralExtra|) + x;
    Le16Read(|e.name|, d, w);
    assert h == d + Le16(|e.name|) + w;
  }

  lemma CentralFields(e: Entry, offset: nat)
    requires Fits(e) && offset < 0x1_0000_0000
    ensures var h := CentralHeader(e, offset);
      && U32(h, 0) == SIG_CENTRAL && U16(h, 10) == MethodNumber(e)
      && U32(h, 20) == |Packed(e)| && U32(h, 24) == |e.plain|
      && U16(h, 28) == |e.name| && U16(h, 30) == |e.centralExtra| && U16(h, 32) == |e.comment| && U32(h, 42) == offset
  {
    hide Packed, MethodNumber, U16, U32, Le16, Le32;
    var rest := Le16(|e.name|) + Le16(|e.centralExtra|) + Le16(|e.comment|) + e.centralMisc[14..] + Le32(offset);
    FrontFields(e, rest);
    BackFields(e, offset, CentralFront(e));
    assert CentralHeader(e, offset) == CentralFront(e) + rest;
  }

  lemma LocalFields(e: Entry)
    requires Fits(e)
    ensures U16(LocalHeader(e), 26) == |e.name| && U16(LocalHeader(e), 28) == |e.localExtra|
  {
    hide Packed, MethodNumber;
    var h := LocalHeader(e);
    var a := [0x50, 0x4B, 3, 4] + e.localMisc[..4] + Le16(MethodNumber(e)) + e.localMisc[4..];
    var b := a + Le16(|e.name|);
    Le16Read(|e.localExtra|, b, []);
    assert h == b + Le16(|e.localExtra|) + [];
    Le16Read(|e.name|, a, Le16(|e.localExtra|));
    assert h == a + Le16(|e.name|) + Le16(|e.localExtra|);
  }

  lemma EndFields(n: nat, size: nat, offset: nat, comment: seq<byte>)
    requires n < 0x1_0000 && size < 0x1_0000_0000 && offset < 0x1_0000_0000 && |comment| < 0x1_0000
    ensures var r := EndRecord(n, size, offset, comment);
      |r| == 22 + |comment| && U32(r, 0) == SIG_EOCD && U16(r, 10) == n && U32(r, 16) == offset
  {
    var r := EndRecord(n, size, offset, comment);
    var a := [0x50, 0x4B, 5, 6, 0, 0, 0, 0] + Le16(n);
    var b := a + Le16(n) + Le32(size);
    var z := Le16(|comment|) + comment;
    Le32Read(offset, b, z);
    assert r == b + Le32(offset) + z;
    var y := Le32(size) + (Le32(offset) + z);
    Le16Read(n, a, y);
    assert r == a + Le16(n) + y;
    assert r[0] == 0x50 && r[1] == 0x4B && r[2] == 5 && r[3] == 6;
  }

  // -- The directory walk ---------------------------------------------------------------------

  function Located(es: seq<Entry>, i: nat): ZipEntry
    requires AllFit(es) && i < |es|
  {
    ZipEntry(MethodNumber(es[i]), |Packed(es[i])|, |es[i].plain|, |Locals(es[..i])|)
  }

  /** The first entry with a name, from the `i`th on. */
  function FirstNamed(es: seq<Entry>, i: nat, name: seq<byte>): (r: Option<nat>)
    requires i <= |es|
    ensures r.Some? ==>
      i <= r.value < |es| && es[r.value].name == name && forall j :: i <= j < r.value ==> es[j].name != name
    ensures r.None? ==> forall j :: i <= j < |es| ==> es[j].name != name
    decreases |es| - i
  {
    if i == |es| then None else if es[i].name == name then Some(i) else FirstNamed(es, i + 1, name)
  }

  /** The fields of a central header wherever it stands in a file. */
  lemma CentralFieldsAt(d: seq<byte>, p: nat, e: Entry, offset: nat)
    requires Fits(e) && offset < 0x1_0000_0000
    requires p + 46 <= |d| && d[p..p + 46] == CentralHeader(e, offset)
    ensures U32(d, p) == SIG_CENTRAL && U16(d, p + 10) == MethodNumber(e)
    ensures U32(d, p + 20) == |Packed(e)| && U32(d, p + 24) == |e.plain|
    ensures U16(d, p + 28) == |e.name| && U16(d, p + 30) == |e.centralExtra| && U16(d, p + 32) == |e.comment|
    ensures U32(d, p + 42) == offset
  {
    CentralFields(e, offset);
    hide CentralHeader, U16, U32;
    var h := CentralHeader(e, offset);
    Shifted(d, p, h, 0);
    Shifted(d, p, h, 10);
    Shifted(d, p, h, 20);
    Shifted(d, p, h, 24);
    Shifted(d, p, h, 28);
    Shifted(d, p, h, 30);
    Shifted(d, p, h, 32);
    Shifted(d, p, h, 42);
  }

  lemma CentralAtRecord(d: seq<byte>, p: nat, e: Entry, offset: nat)
    requires Fits(e) && offset < 0x1_0000_0000
    requires p + |CentralRecord(e, offset)| <= |d| && d[p..p + |CentralRecord(e, offset)|] == CentralRecord(e, offset)
    ensures CentralAt(d, p) ==
      Some(Central(ZipEntry(MethodNumber(e), |Packed(e)|, |e.plain|, offset), e.name, p + |CentralRecord(e, offset)|))
  {
    hide CentralHeader, U16, U32;
    var h, tail := CentralHeader(e, offset), e.name + (e.centralExtra + e.comment);
    assert CentralRecord(e, offset) == h + tail;
    Sub(d, p, h, tail);
    Sub(d, p + 46, e.name, e.centralExtra + e.comment);
    CentralFieldsAt(d, p, e, offset);
  }

  lemma Sub(d: seq<byte>, p: nat, x: seq<byte>, y: seq<byte>)
    requires p + |x + y| <= |d| && d[p..p + |x + y|] == x + y
    ensures d[p..p + |x|] == x && d[p + |x|..p + |x| + |y|] == y
  {
    var s := d[p..p + |x + y|];
    assert d[p..p + |x|] == s[..|x|] && d[p + |x|..p + |x| + |y|] == s[|x|..];
  }

  lemma {:induction false} FindInDirectory(d: seq<byte>, p: nat, es: seq<Entry>, i: nat, name: seq<byte>)
    requires AllFit(es) && i <= |es| && |Locals(es)| < 0xFFFF_FFFF
    requires p + |Centrals(es, i)| <= |d| && d[p..p + |Centrals(es, i)|] == Centrals(es, i)
    ensures var k := FirstNamed(es, i, name);
      FindFrom(d, p, |es| - i, name) == if k.None? then None else Some(Located(es, k.value))
    decreases |es| - i
  {
    hide CentralRecord, CentralAt, Fits, Locals;
    if i < |es| {
      PrefixShorter(es, i);
      var offset := |Locals(es[..i])|;
      var r := CentralRecord(es[i], offset);
      Sub(d, p, r, Centrals(es, i + 1));
      CentralAtRecord(d, p, es[i], offset);
      FindInDirectory(d, p + |r|, es, i + 1, name);
    }
  }

  // -- The end record ---------------------------------------------------------------------------

  lemma {:induction false} BackScanFinds(tail: seq<byte>, i: nat, e: nat)
    requires e <= i && i + 22 <= |tail| && U32(tail, e) == SIG_EOCD
    requires forall j :: e < j <= i ==> U32(tail, j) != SIG_EOCD
    ensures BackScan(tail, i) == e
    decreases i
  {
    if e < i {
      BackScanFinds(tail, i - 1, e);
    }
  }

  /** No end-record signature starts inside the end record or its comment. */
  predicate NoLaterSignature(file: seq<byte>, end: nat) {
    forall j :: end < j <= |file| - 22 ==> U32(file, j) != SIG_EOCD
  }

  /** The bytes the search looks at. */
  function Tail(file: seq<byte>): seq<byte> {
    file[|file| - Min(|file|, 22 + 65535)..]
  }

  lemma EocdValue(file: seq<byte>, e: nat, n: nat, offset: nat)
    requires e + 22 <= |Tail(file)| && BackScan(Tail(file), |Tail(file)| - 22) == e
    requires U16(Tail(file), e + 10) == n < 0xFFFF && U32(Tail(file), e + 16) == offset < 0xFFFF_FFFF
    ensures FindEocd(file) == Some(Eocd(n, offset))
  {
    hide BackScan, U16, U32;
  }

  lemma NoLaterInTail(file: seq<byte>, end: nat, e: nat)
    requires NoLaterSignature(file, end) && end == e + |file| - |Tail(file)|
    ensures forall j :: e < j <= |Tail(file)| - 22 ==> U32(Tail(file), j) != SIG_EOCD
  {
    hide U32;
    var cut := |file| - |Tail(file)|;
    forall j | e < j <= |Tail(file)| - 22
      ensures U32(Tail(file), j) != SIG_EOCD
    {
      SameU32(file, cut, j);
      assert U32(file, cut + j) != SIG_EOCD;
    }
  }

  lemma EocdFound(file: seq<byte>, end: nat, n: nat, size: nat, offset: nat, comment: seq<byte>)
    requires n < 0xFFFF && size < 0x1_0000_0000 && offset < 0xFFFF_FFFF && |comment| < 0x1_0000
    requires end + 22 + |comment| == |file| && file[end..] == EndRecord(n, size, offset, comment)
    requires NoLaterSignature(file, end)
    ensures FindEocd(file) == Some(Eocd(n, offset))
  {
    hide EndRecord, U16, U32, BackScan, FindEocd, NoLaterSignature;
    var tail := Tail(file);
    var e := end - (|file| - |tail|);
    assert tail[e..] == file[end..];
    EndFieldsAt(tail, e, n, size, offset, comment);
    NoLaterInTail(file, end, e);
    BackScanFinds(tail, |tail| - 22, e);
    EocdValue(file, e, n, offset);
  }

  lemma EndFieldsAt(d: seq<byte>, p: nat, n: nat, size: nat, offset: nat, comment: seq<byte>)
    requires n < 0x1_0000 && size < 0x1_0000_0000 && offset < 0x1_0000_0000 && |comment| < 0x1_0000
    requires p + 22 <= |d| && d[p..] == EndRecord(n, size, offset, comment)
    ensures U32(d, p) == SIG_EOCD && U16(d, p + 10) == n && U32(d, p + 16) == offset
  {
    EndFields(n, size, offset, comment);
    hide EndRecord, U16, U32;
    var r := EndRecord(n, size, offset, comment);
    assert d[p..p + |r|] == d[p..];
    Shifted(d, p, r, 0);
    Shifted(d, p, r, 10);
    Shifted(d, p, r, 16);
  }

  lemma SameU32(file: seq<byte>, cut: nat, j: nat)
    requires cut + j + 4 <= |file|
    ensures U32(file[cut..], j) == U32(file, cut + j)
  {
  }

  // -- What was put in is found -------------------------------------------------------------------

  lemma LocalWithin(es: seq<Entry>, i: nat)
    requires AllFit(es) && i < |es|
    ensures var p := |Locals(es[..i])|; var r := LocalRecord(es[i]);
      p + |r| <= |Locals(es)| && Locals(es)[p..p + |r|] == r
  {
    hide LocalRecord, Fits;
    PrefixShorter(es, i + 1);
    var next := es[..i + 1];
    assert next[..|next| - 1] == es[..i] && next[|next| - 1] == es[i];
    var tail :| Locals(es) == Locals(next) + tail;
    assert Locals(next) == Locals(es[..i]) + LocalRecord(es[i]);
  }

  lemma DataWithin(file: seq<byte>, p: nat, e: Entry)
    requires Fits(e) && p + |LocalRecord(e)| <= |file| && file[p..p + |LocalRecord(e)|] == LocalRecord(e)
    ensures var start := p + 30 + |e.name| + |e.localExtra|;
      DataStart(file, p) == Some(start) && start + |Packed(e)| <= |file| &&
      file[start..start + |Packed(e)|] == Packed(e)
  {
    hide LocalHeader, Packed, U16, U32;
    var r, h := LocalRecord(e), LocalHeader(e);
    LocalFields(e);
    assert file[p..p + 30] == file[p..p + |r|][..30] == r[..30] == h;
    Shifted(file, p, h, 26);
    Shifted(file, p, h, 28);
    var head := h + e.name + e.localExtra;
    assert r == head + (Packed(e) + e.descriptor);
    Sub(file, p, head, Packed(e) + e.descriptor);
    Sub(file, p + |head|, Packed(e), e.descriptor);
  }

  lemma DirectoryFound(es: seq<Entry>, comment: seq<byte>, name: seq<byte>)
    requires Writable(es, comment)
    requires NoLaterSignature(Archive(es, comment), |Locals(es)| + |Centrals(es, 0)|)
    ensures var k := FirstNamed(es, 0, name);
      FindEntry(Archive(es, comment), name) == if k.None? then None else Some(Located(es, k.value))
  {
    var file, a, b := Archive(es, comment), Locals(es), Centrals(es, 0);
    var c := EndRecord(|es|, |b|, |a|, comment);
    EndFields(|es|, |b|, |a|, comment);
    assert file[|a|..|a| + |b|] == b && file[|a| + |b|..] == c;
    EocdFound(file, |a| + |b|, |es|, |b|, |a|, comment);
    FindInDirectory(file, |a|, es, 0, name);
  }

  lemma EntryWithin(es: seq<Entry>, comment: seq<byte>, i: nat)
    requires Writable(es, comment) && i < |es|
    ensures var file := Archive(es, comment);
      var start := |Locals(es[..i])| + 30 + |es[i].name| + |es[i].localExtra|;
      DataStart(file, |Locals(es[..i])|) == Some(start) && start + |Packed(es[i])| <= |file| &&
        file[start..start + |Packed(es[i])|] == Packed(es[i])
  {
    hide LocalRecord, Centrals, EndRecord, DataStart, Packed;
    var file, p, r := Archive(es, comment), |Locals(es[..i])|, LocalRecord(es[i]);
    LocalWithin(es, i);
    assert file[p..p + |r|] == Locals(es)[p..p + |r|];
    DataWithin(file, p, es[i]);
  }

  /** Inflating the text of a deflated entry into a buffer of its plain length gives its plain bytes. */
  predicate Inflates(e: Entry, inflate: RawInflate) {
    e.packing.Deflate? ==> inflate(e.packing.text, |e.plain|) == Some(e.plain)
  }

  predicate AllInflate(es: seq<Entry>, inflate: RawInflate) {
    forall i :: 0 <= i < |es| ==> Inflates(es[i], inflate)
  }

  /** What opening an entry is to give: a slice that holds its bytes, its bytes in memory, or nothing. */
  predicate Gives(file: seq<byte>, e: Entry, r: Opened) {
    match e.packing
    case Plain => r.Slice? && r.start + r.size <= |file| && file[r.start..r.start + r.size] == e.plain
    case Deflate(_) => r == Memory(e.plain)
    case Method(_, _) => r == Nothing
  }

  /** And when the `k`th entry, if any, is the one asked for. */
  predicate Yields(file: seq<byte>, es: seq<Entry>, k: Option<nat>, r: Opened) {
    match k
    case None => r == Nothing
    case Some(i) => i < |es| && Gives(file, es[i], r)
  }

  lemma OpenNone(file: seq<byte>, name: seq<byte>, inflate: RawInflate)
    requires FindEntry(file, name) == None
    ensures OpenResult(file, name, inflate) == Nothing
  {
  }

  lemma OpenFound(file: seq<byte>, name: seq<byte>, inflate: RawInflate, e: Entry, offset: nat, start: nat)
    requires FindEntry(file, name) == Some(ZipEntry(MethodNumber(e), |Packed(e)|, |e.plain|, offset))
    requires DataStart(file, offset) == Some(start) && Fits(e) && Inflates(e, inflate)
    requires start + |Packed(e)| <= |file| && file[start..start + |Packed(e)|] == Packed(e)
    ensures Gives(file, e, OpenResult(file, name, inflate))
  {
    hide FindEntry, DataStart;
  }

  lemma OpenLocated(es: seq<Entry>, comment: seq<byte>, i: nat, name: seq<byte>, inflate: RawInflate)
    requires Writable(es, comment) && i < |es| && FindEntry(Archive(es, comment), name) == Some(Located(es, i))
    requires Inflates(es[i], inflate)
    ensures Gives(Archive(es, comment), es[i], OpenResult(Archive(es, comment), name, inflate))
  {
    hide Archive, FindEntry, DataStart, OpenResult, Locals, Centrals, Packed, MethodNumber, Inflates, Fits;
    EntryWithin(es, comment, i);
    OpenFound(Archive(es, comment), name, inflate, es[i], |Locals(es[..i])|,
              |Locals(es[..i])| + 30 + |es[i].name| + |es[i].localExtra|);
  }

  /** Opening a name yields the first entry that has it: a stored one as a slice that holds exactly
      its bytes, a deflated one as its bytes in memory; nothing if there is none, or if it is packed
      in another way. */
  lemma OpenFindsFirst(es: seq<Entry>, comment: seq<byte>, name: seq<byte>, inflate: RawInflate)
    requires Writable(es, comment) && AllInflate(es, inflate)
    requires NoLaterSignature(Archive(es, comment), |Locals(es)| + |Centrals(es, 0)|)
    ensures Yields(Archive(es, comment), es, FirstNamed(es, 0, name), OpenResult(Archive(es, comment), name, inflate))
  {
    hide Archive, FindEntry, FirstNamed, OpenResult, Locals, Centrals, NoLaterSignature, Writable, Inflates, Gives;
    DirectoryFound(es, comment, name);
    var k := FirstNamed(es, 0, name);
    if k.None? {
      OpenNone(Archive(es, comment), name, inflate);
    } else {
      OpenLocated(es, comment, k.value, name, inflate);
    }
  }

  /** An end record that says ZIP64: nothing is opened. */
  lemma Zip64Refused(file: seq<byte>, end: nat, n: nat, size: nat, offset: nat, comment: seq<byte>, name: seq<byte>,
                     inflate: RawInflate)
    requires n < 0x1_0000 && size < 0x1_0000_0000 && offset < 0x1_0000_0000 && |comment| < 0x1_0000
    requires end + 22 + |comment| == |file| && file[end..] == EndRecord(n, size, offset, comment)
    requires NoLaterSignature(file, end) && (n == 0xFFFF || offset == 0xFFFF_FFFF)
    ensures OpenResult(file, name, inflate) == Nothing
  {
    hide EndRecord, U16, U32, BackScan, NoLaterSignature;
    var tail := Tail(file);
    var e := end - (|file| - |tail|);
    assert tail[e..] == file[end..];
    EndFieldsAt(tail, e, n, size, offset, comment);
    NoLaterInTail(file, end, e);
    BackScanFinds(tail, |tail| - 22, e);
    assert FindEocd(file) == None;
  }

  /** An archive without a comment has no room for a second signature. */
  lemma NoCommentNoSignature(es: seq<Entry>)
    requires Writable(es, [])
    ensures NoLaterSignature(Archive(es, []), |Locals(es)| + |Centrals(es, 0)|)
  {
    EndFields(|es|, |Centrals(es, 0)|, |Locals(es)|, []);
  }

  // -- Reading the slice ----------------------------------------------------------------------------

  datatype Request = ReadOp(count: nat) | SeekOp(offset: int, whence: Whence)
  datatype Reply = Got(bytes: seq<byte>) | At(pos: int)

  /** What a cursor over `contents` replies to a sequence of requests. */
  function CursorReplies(contents: seq<byte>, pos: nat, ops: seq<Request>): seq<Reply>
    decreases |ops|
  {
    if ops == [] then []
    else
      var (reply, next) := CursorOne(contents, pos, ops[0]);
      [reply] + CursorReplies(contents, next, ops[1..])
  }

  /** A slice within its file replies as a cursor over exactly the bytes of the slice. */
  method Serve(reader: SlicedFileReadSeek, ops: seq<Request>) returns (replies: seq<Reply>)
    requires reader.Inside()
    modifies reader
    ensures replies == CursorReplies(reader.Contents(), old(reader.pos), ops)
  {
    replies := [];
    for i := 0 to |ops|
      invariant reader.Inside()
      invariant replies + CursorReplies(reader.Contents(), reader.pos, ops[i..]) ==
        CursorReplies(reader.Contents(), old(reader.pos), ops)
    {
      CursorStep(reader.Contents(), reader.pos, ops[i..], replies);
      assert ops[i..][1..] == ops[i + 1..];
      var reply := ServeOne(reader, ops[i]);
      replies := replies + [reply];
    }
    assert ops[|ops|..] == [];
  }

  /** The reply to one request, and where it leaves the cursor. */
  function CursorOne(contents: seq<byte>, pos: nat, op: Request): (Reply, nat) {
    match op
    case ReadOp(n) => (Got(ReadAt(contents, pos, n)), pos + |ReadAt(contents, pos, n)|)
    case SeekOp(offset, whence) =>
      var r := SeekTo(contents, pos, offset, whence);
      (At(r), if r < 0 then pos else r)
  }

  lemma CursorStep(contents: seq<byte>, pos: nat, ops: seq<Request>, before: seq<Reply>)
    requires ops != []
    ensures var (reply, next) := CursorOne(contents, pos, ops[0]);
      before + CursorReplies(contents, pos, ops) == before + [reply] + CursorReplies(contents, next, ops[1..])
  {
  }

  method ServeOne(reader: SlicedFileReadSeek, op: Request) returns (reply: Reply)
    requires reader.Inside()
    modifies reader
    ensures reader.Inside() && (reply, reader.pos) == CursorOne(reader.Contents(), old(reader.pos), op)
  {
    match op {
      case ReadOp(n) =>
        var b := reader.Read(n);
        reply := Got(b);
      case SeekOp(offset, whence) =>
        var r := reader.Seek(offset, whence);
        reply := At(r);
    }
  }

  /** Serving requests from a slice of a file that holds `data`. */
  method ServeSlice(file: seq<byte>, start: nat, size: nat, ops: seq<Request>) returns (replies: seq<Reply>)
    requires start + size <= |file|
    ensures replies == CursorReplies(file[start..start + size], 0, ops)
  {
    var reader := new SlicedFileReadSeek(file, start, size);
    replies := Serve(reader, ops);
  }

  /** And from bytes in memory. */
  method ServeMemory(bytes: seq<byte>, ops: seq<Request>) returns (replies: seq<Reply>)
    ensures replies == CursorReplies(bytes, 0, ops)
  {
    var reader := new MemReadSeek(bytes);
    replies := [];
    for i := 0 to |ops|
      invariant reader.data == bytes
      invariant replies + CursorReplies(bytes, reader.pos, ops[i..]) == CursorReplies(bytes, 0, ops)
    {
      CursorStep(bytes, reader.pos, ops[i..], replies);
      assert ops[i..][1..] == ops[i + 1..];
      var reply;
      match ops[i] {
        case ReadOp(n) =>
          var b := reader.Read(n);
          reply := Got(b);
        case SeekOp(offset, whence) =>
          var r := reader.Seek(offset, whence);
          reply := At(r);
      }
      replies := replies + [reply];
    }
    assert ops[|ops|..] == [];
  }

  /** Opens an entry of an archive and puts the requests to what it is given: that replies as a
      cursor over exactly the entry's bytes, stored or deflated. */
  method ReadEntry(es: seq<Entry>, name: seq<byte>, inflate: RawInflate, ops: seq<Request>)
      returns (replies: Option<seq<Reply>>)
    requires Writable(es, []) && AllInflate(es, inflate)
    ensures var k := FirstNamed(es, 0, name);
      replies == if k.None? || es[k.value].packing.Method? then None
                 else Some(CursorReplies(es[k.value].plain, 0, ops))
  {
    hide Archive, Writable, OpenResult, CursorReplies, NoLaterSignature, FirstNamed, Locals, Centrals, AllInflate;
    NoCommentNoSignature(es);
    OpenFindsFirst(es, [], name, inflate);
    var file := Archive(es, []);
    var found := OpenEntryFromZip(file, name, inflate);
    match found {
      case Nothing =>
        return None;
      case Slice(start, size) =>
        var out := ServeSlice(file, start, size, ops);
        replies := Some(out);
      case Memory(bytes) =>
        var out := ServeMemory(bytes, ops);
        replies := Some(out);
    }
  }
}
