/**
 * The .ico container: a directory of entries, then the PNG files it points at
 * (frontend/scripts/icons.ts), with the PNG header of section 4.1.1 of RFC 2083.
 */
module Ico {
  import opened Wrappers

  datatype Image = Image(size: int, png: seq<Byte>)

  datatype IcoError = NotAPng | WrongSize(index: nat)

  // ----- Numbers as bytes -----------------------------------------------------------

  const TWO16 := 0x1_0000
  const TWO32 := 0x1_0000_0000

  /** The low bytes of a number, least significant first: what a DataView write keeps. */
  function Little(n: nat, count: nat): (b: seq<Byte>)
    ensures |b| == count
  {
    if count == 0 then [] else [n % 256] + Little(n / 256, count - 1)
  }

  function U16(n: nat): (b: seq<Byte>) {
    Little(n, 2)
  }

  function U32(n: nat): (b: seq<Byte>) {
    Little(n, 4)
  }

  function ReadU16(b: seq<Byte>, at: nat): nat
    requires at + 2 <= |b|
  {
    (b[at] as int) + 256 * (b[at + 1] as int)
  }

  function ReadU32(b: seq<Byte>, at: nat): nat
    requires at + 4 <= |b|
  {
    (b[at] as int) + 256 * (b[at + 1] as int) + 0x1_0000 * (b[at + 2] as int) + 0x100_0000 * (b[at + 3] as int)
  }

  /** Big-endian, as PNG stores its numbers. */
  function ReadBig32(b: seq<Byte>, at: nat): nat
    requires at + 4 <= |b|
  {
    0x100_0000 * (b[at] as int) + 0x1_0000 * (b[at + 1] as int) + 256 * (b[at + 2] as int) + (b[at + 3] as int)
  }

  function Big32(n: nat): (b: seq<Byte>)
    ensures |b| == 4
  {
    [n / 256 / 256 / 256 % 256, n / 256 / 256 % 256, n / 256 % 256, n % 256]
  }

  lemma LittleBytes(n: nat)
    ensures Little(n, 2) == [n % 256, n / 256 % 256]
    ensures Little(n, 4) == [n % 256, n / 256 % 256, n / 256 / 256 % 256, n / 256 / 256 / 256 % 256]
  {
    var a := n / 256;
    var b := a / 256;
    var c := b / 256;
    assert Little(c, 1) == [c % 256] + Little(c / 256, 0);
    assert Little(b, 2) == [b % 256] + Little(c, 1);
    assert Little(a, 1) == [a % 256] + Little(b, 0);
  }

  lemma U16RoundTrip(n: nat)
    ensures ReadU16(U16(n), 0) == n % TWO16
  {
    LittleBytes(n);
  }

  lemma U32RoundTrip(n: nat)
    ensures ReadU32(U32(n), 0) == n % TWO32
  {
    var a := n / 256;
    var b := a / 256;
    var c := b / 256;
    LittleBytes(n);
    assert n == n % 256 + 256 * a && a == a % 256 + 256 * b && b == b % 256 + 256 * c;
    var low := n % 256 + 256 * (a % 256) + 0x1_0000 * (b % 256) + 0x100_0000 * (c % 256);
    assert n == low + TWO32 * (c / 256) && 0 <= low < TWO32;
    Remainder(n, low, c / 256);
  }

  lemma Remainder(n: nat, low: nat, high: nat)
    requires n == low + TWO32 * high && low < TWO32
    ensures n % TWO32 == low
  {
  }

  lemma Big32RoundTrip(n: nat)
    requires n < TWO32
    ensures ReadBig32(Big32(n), 0) == n
  {
    var a := n / 256;
    var b := a / 256;
    var c := b / 256;
    assert n == n % 256 + 256 * a && a == a % 256 + 256 * b && b == b % 256 + 256 * c;
    assert c < 256;
  }

  // ----- PNG ------------------------------------------------------------------------------

  function PngSize(png: seq<Byte>): Option<(nat, nat)> {
    if |png| >= 24 && ReadBig32(png, 0) == 0x8950_4e47 && ReadBig32(png, 12) == 0x4948_4452
    then Some((ReadBig32(png, 16), ReadBig32(png, 20)))
    else None
  }

  /** The signature, then the length, type and first two fields of the header chunk. */
  function PngStart(width: nat, height: nat): seq<Byte> {
    [0x89, 0x50, 0x4e, 0x47, 0x0d, 0x0a, 0x1a, 0x0a] + Big32(13) + [0x49, 0x48, 0x44, 0x52] + Big32(width) + Big32(height)
  }

  lemma ReadsAt(b: seq<Byte>, at: nat, part: seq<Byte>)
    requires |part| == 4 && at + 4 <= |b| && b[at..at + 4] == part
    ensures ReadU32(b, at) == ReadU32(part, 0)
    ensures ReadBig32(b, at) == ReadBig32(part, 0)
  {
    assert forall i | 0 <= i < 4 :: b[at + i] == part[i];
    assert b[at] == part[0] && b[at + 1] == part[1] && b[at + 2] == part[2] && b[at + 3] == part[3];
  }

  /** Any file that starts as the standard says is read back with its own dimensions. */
  lemma PngSizeReadsHeader(width: nat, height: nat, rest: seq<Byte>)
    requires width < TWO32 && height < TWO32
    ensures PngSize(PngStart(width, height) + rest) == Some((width, height))
  {
    var png := PngStart(width, height) + rest;
    Big32RoundTrip(width);
    Big32RoundTrip(height);
    ReadsAt(png, 16, Big32(width));
    ReadsAt(png, 20, Big32(height));
    assert png[12..16] == [0x49, 0x48, 0x44, 0x52];
    ReadsAt(png, 12, [0x49, 0x48, 0x44, 0x52]);
  }

  // ----- What the container is ----------------------------------------------------------------

  /** A square PNG of the declared side, at most 256. */
  predicate Valid(i: Image) {
    PngSize(i.png) == Some((i.size, i.size)) && 1 <= i.size <= 256
  }

  /** The bytes a reader of the header goes by are where they should be; the rest of the start is not looked at. */
  predicate LooksLikePng(png: seq<Byte>) {
    && |png| >= 24
    && png[..4] == [0x89, 'P' as int, 'N' as int, 'G' as int]
    && png[12..16] == ['I' as int, 'H' as int, 'D' as int, 'R' as int]
  }

  lemma SizeIsReadIff(png: seq<Byte>)
    ensures PngSize(png).Some? <==> LooksLikePng(png)
  {
    if |png| >= 24 {
      FourBytes(png, 0, 0x89, 'P' as int, 'N' as int, 'G' as int);
      FourBytes(png, 12, 'I' as int, 'H' as int, 'D' as int, 'R' as int);
    }
  }

  /** Four bytes are told apart by the number they spell. */
  lemma FourBytes(b: seq<Byte>, at: nat, b0: Byte, b1: Byte, b2: Byte, b3: Byte)
    requires at + 4 <= |b|
    ensures ReadBig32(b, at) == 0x100_0000 * (b0 as int) + 0x1_0000 * (b1 as int) + 256 * (b2 as int) + (b3 as int)
            <==> b[at..at + 4] == [b0, b1, b2, b3]
  {
    SameDigits(b[at], b[at + 1], b[at + 2], b[at + 3], b0, b1, b2, b3);
    var part := b[at..at + 4];
    assert part[0] == b[at] && part[1] == b[at + 1] && part[2] == b[at + 2] && part[3] == b[at + 3];
    assert part == [part[0], part[1], part[2], part[3]];
  }

  lemma SameDigits(a0: Byte, a1: Byte, a2: Byte, a3: Byte, b0: Byte, b1: Byte, b2: Byte, b3: Byte)
    ensures 0x100_0000 * a0 + 0x1_0000 * a1 + 256 * a2 + a3 == 0x100_0000 * b0 + 0x1_0000 * b1 + 256 * b2 + b3
            <==> a0 == b0 && a1 == b1 && a2 == b2 && a3 == b3
  {
    var high, high' := 256 * a0 + a1, 256 * b0 + b1;
    var low, low' := 256 * a2 + a3, 256 * b2 + b3;
    assert 0 <= low < 0x1_0000 && 0 <= low' < 0x1_0000;
    if 0x1_0000 * high + low == 0x1_0000 * high' + low' {
      assert high == high' && low == low';
    }
  }

  /** Both dimensions stand in the header as the declared side, which is from 1 to 256, and so in two bytes. */
  lemma ValidIff(image: Image)
    ensures Valid(image) <==>
              && LooksLikePng(image.png)
              && 0 < image.size < 257
              && image.png[16..20] == [0, 0, image.size / 256, image.size % 256]
              && image.png[20..24] == [0, 0, image.size / 256, image.size % 256]
  {
    SizeIsReadIff(image.png);
    if LooksLikePng(image.png) && 1 <= image.size <= 256 {
      FourBytes(image.png, 16, 0, 0, image.size / 256, image.size % 256);
      FourBytes(image.png, 20, 0, 0, image.size / 256, image.size % 256);
    }
  }

  predicate SizesFit(images: seq<Image>) {
    forall i | 0 <= i < |images| :: 1 <= images[i].size <= 256
  }

  predicate AllValid(images: seq<Image>) {
    forall i | 0 <= i < |images| :: Valid(images[i])
  }

  /** Writing a number into a byte buffer keeps its low eight bits. */
  function SizeByte(size: int): Byte {
    if size == 256 then 0 else size % 256
  }

  function EntryOf(i: Image, offset: nat): (b: seq<Byte>)
    ensures |b| == 16
  {
    [SizeByte(i.size), SizeByte(i.size), 0, 0] + U16(1) + U16(32) + U32(|i.png|) + U32(offset)
  }

  /** Byte strings one after another. */
  function Concat(parts: seq<seq<Byte>>): seq<Byte> {
    if parts == [] then [] else Concat(parts[..|parts| - 1]) + parts[|parts| - 1]
  }

  function Pngs(images: seq<Image>): (parts: seq<seq<Byte>>)
    ensures |parts| == |images|
  {
    seq(|images|, i requires 0 <= i < |images| => images[i].png)
  }

  function Data(images: seq<Image>): seq<Byte> {
    Concat(Pngs(images))
  }

  predicate AllOf16(parts: seq<seq<Byte>>) {
    forall i | 0 <= i < |parts| :: |parts[i]| == 16
  }

  /** Where image i starts. */
  function OffsetOf(images: seq<Image>, i: nat): nat
    requires i <= |images|
  {
    6 + 16 * |images| + |Data(images[..i])|
  }

  /** One entry an image, each pointing at where the images before it end. */
  function EntryList(images: seq<Image>): (parts: seq<seq<Byte>>)
    ensures |parts| == |images| && AllOf16(parts)
  {
    seq(|images|, i requires 0 <= i < |images| => EntryOf(images[i], OffsetOf(images, i)))
  }

  function Header(n: nat): (b: seq<Byte>)
    ensures |b| == 6
  {
    U16(0) + U16(1) + U16(n)
  }

  function IcoBytes(images: seq<Image>): seq<Byte> {
    Header(|images|) + Concat(EntryList(images)) + Data(images)
  }

  // ----- The encoder --------------------------------------------------------------------------

  /** The buffer with some bytes written at a place and nothing else changed. */
  ghost predicate Wrote(before: seq<Byte>, after: seq<Byte>, at: nat, bytes: seq<Byte>) {
    && |after| == |before| && at + |bytes| <= |before|
    && (forall k | 0 <= k < |bytes| :: after[at + k] == bytes[k])
    && (forall k | 0 <= k < |before| && !(at <= k < at + |bytes|) :: after[k] == before[k])
  }

  method Put(out: array<Byte>, at: nat, bytes: seq<Byte>)
    requires at + |bytes| <= out.Length
    modifies out
    ensures Wrote(old(out[..]), out[..], at, bytes)
  {
    for i := 0 to |bytes|
      invariant forall k | 0 <= k < i :: out[at + k] == bytes[k]
      invariant forall k | 0 <= k < out.Length && !(at <= k < at + i) :: out[k] == old(out[k])
    {
      out[at + i] := bytes[i];
    }
  }

  lemma WroteTwice(a: seq<Byte>, b: seq<Byte>, c: seq<Byte>, at: nat, first: seq<Byte>, second: seq<Byte>)
    requires Wrote(a, b, at, first) && Wrote(b, c, at + |first|, second)
    ensures Wrote(a, c, at, first + second)
  {
    var both := first + second;
    forall k | 0 <= k < |both|
      ensures c[at + k] == both[k]
    {
      if k >= |first| {
        assert c[at + |first| + (k - |first|)] == second[k - |first|];
      } else {
        assert b[at + k] == first[k];
      }
    }
  }

  /** One directory entry, field by field, at its place in the buffer. */
  method PutEntry(out: array<Byte>, entry: nat, image: Image, offset: nat)
    requires entry + 16 <= out.Length
    modifies out
    ensures Wrote(old(out[..]), out[..], entry, EntryOf(image, offset))
  {
    ghost var before := out[..];
    var size := SizeByte(image.size);
    Put(out, entry, [size, size, 0, 0]);
    ghost var b0 := out[..];
    Put(out, entry + 4, U16(1));
    ghost var b1 := out[..];
    WroteTwice(before, b0, b1, entry, [size, size, 0, 0], U16(1));
    Put(out, entry + 6, U16(32));
    ghost var b2 := out[..];
    WroteTwice(before, b1, b2, entry, [size, size, 0, 0] + U16(1), U16(32));
    Put(out, entry + 8, U32(|image.png|));
    ghost var b3 := out[..];
    WroteTwice(before, b2, b3, entry, [size, size, 0, 0] + U16(1) + U16(32), U32(|image.png|));
    Put(out, entry + 12, U32(offset));
    WroteTwice(before, b3, out[..], entry, [size, size, 0, 0] + U16(1) + U16(32) + U32(|image.png|), U32(offset));
  }

  /** A buffer holding a header, some entries after it and some image bytes from start on. */
  ghost predicate Holds(buffer: seq<Byte>, header: seq<Byte>, entries: seq<Byte>, start: nat, data: seq<Byte>) {
    && |header| + |entries| <= start && start + |data| <= |buffer|
    && buffer[..|header|] == header
    && buffer[|header|..|header| + |entries|] == entries
    && buffer[start..start + |data|] == data
  }

  /** A file under way: its header, the first i of its entries and the first i of its images are in place. */
  ghost predicate UnderWay(buffer: seq<Byte>, header: seq<Byte>, entries: seq<seq<Byte>>, pngs: seq<seq<Byte>>, i: nat) {
    && |header| == 6 && AllOf16(entries) && i <= |entries| == |pngs|
    && |buffer| == 6 + 16 * |entries| + |Concat(pngs)|
    && Holds(buffer, header, Concat(entries[..i]), 6 + 16 * |entries|, Concat(pngs[..i]))
  }

  ghost predicate Written(buffer: seq<Byte>, images: seq<Image>, i: nat) {
    UnderWay(buffer, Header(|images|), EntryList(images), Pngs(images), i)
  }

  /** Two writes that do not overlap, each extending what was in place before it. */
  lemma TwoWrites(b0: seq<Byte>, b1: seq<Byte>, b2: seq<Byte>, header: seq<Byte>, entries: seq<Byte>, entry: seq<Byte>,
                  start: nat, data: seq<Byte>, png: seq<Byte>)
    requires Holds(b0, header, entries, start, data) && |header| + |entries| + |entry| <= start
    requires Wrote(b0, b1, |header| + |entries|, entry) && Wrote(b1, b2, start + |data|, png)
    ensures |b2| == |b0| && Holds(b2, header, entries + entry, start, data + png)
  {
    EntryWritten(b0, b1, header, entries, entry, start, data);
    ImageWritten(b1, b2, header, entries + entry, start, data, png);
  }

  lemma EntryWritten(b0: seq<Byte>, b1: seq<Byte>, header: seq<Byte>, entries: seq<Byte>, entry: seq<Byte>, start: nat,
                     data: seq<Byte>)
    requires Holds(b0, header, entries, start, data) && |header| + |entries| + |entry| <= start
    requires Wrote(b0, b1, |header| + |entries|, entry)
    ensures Holds(b1, header, entries + entry, start, data)
  {
    WriteElsewhere(b0, b1, 0, header, |header| + |entries|, entry);
    WriteElsewhere(b0, b1, |header|, entries, |header| + |entries|, entry);
    WriteAfter(b0, b1, |header|, entries, entry);
    WriteElsewhere(b0, b1, start, data, |header| + |entries|, entry);
  }

  lemma ImageWritten(b1: seq<Byte>, b2: seq<Byte>, header: seq<Byte>, entries: seq<Byte>, start: nat, data: seq<Byte>,
                     png: seq<Byte>)
    requires Holds(b1, header, entries, start, data) && Wrote(b1, b2, start + |data|, png)
    ensures Holds(b2, header, entries, start, data + png)
  {
    WriteElsewhere(b1, b2, 0, header, start + |data|, png);
    WriteElsewhere(b1, b2, |header|, entries, start + |data|, png);
    WriteElsewhere(b1, b2, start, data, start + |data|, png);
    WriteAfter(b1, b2, start, data, png);
  }

  /** A write right after a part extends it. */
  lemma WriteAfter(before: seq<Byte>, after: seq<Byte>, at: nat, part: seq<Byte>, more: seq<Byte>)
    requires at + |part| <= |after| && after[at..at + |part|] == part && Wrote(before, after, at + |part|, more)
    ensures after[at..at + |part + more|] == part + more
  {
    assert after[at..at + |part + more|] == after[at..at + |part|] + after[at + |part|..at + |part + more|];
  }

  /** A write leaves a part it does not touch. */
  lemma WriteElsewhere(before: seq<Byte>, after: seq<Byte>, at: nat, part: seq<Byte>, there: nat, more: seq<Byte>)
    requires at + |part| <= |before| && before[at..at + |part|] == part && Wrote(before, after, there, more)
    requires at + |part| <= there || there + |more| <= at
    ensures after[at..at + |part|] == part
  {
    assert forall k | 0 <= k < |part| :: after[at + k] == before[at + k] == part[k];
  }

  lemma OneFurther(header: seq<Byte>, entries: seq<seq<Byte>>, pngs: seq<seq<Byte>>, i: nat, b0: seq<Byte>, b1: seq<Byte>,
                   b2: seq<Byte>)
    requires UnderWay(b0, header, entries, pngs, i) && i < |entries|
    requires Wrote(b0, b1, 6 + 16 * i, entries[i])
    requires Wrote(b1, b2, 6 + 16 * |entries| + |Concat(pngs[..i])|, pngs[i])
    ensures UnderWay(b2, header, entries, pngs, i + 1)
  {
    ConcatOf16(entries, i);
    ConcatStep(entries, i);
    ConcatStep(pngs, i);
    TwoWrites(b0, b1, b2, header, Concat(entries[..i]), entries[i], 6 + 16 * |entries|, Concat(pngs[..i]), pngs[i]);
  }

  lemma WrittenStep(images: seq<Image>, i: nat, offset: nat, b0: seq<Byte>, b1: seq<Byte>, b2: seq<Byte>)
    requires i < |images| && Written(b0, images, i) && offset == OffsetOf(images, i)
    requires Wrote(b0, b1, 6 + 16 * i, EntryList(images)[i])
    requires Wrote(b1, b2, offset, images[i].png)
    ensures Written(b2, images, i + 1)
  {
    PngsPrefix(images, i);
    OneFurther(Header(|images|), EntryList(images), Pngs(images), i, b0, b1, b2);
  }

  lemma ConcatStep(parts: seq<seq<Byte>>, i: nat)
    requires i < |parts|
    ensures Concat(parts[..i + 1]) == Concat(parts[..i]) + parts[i]
  {
    assert parts[..i + 1][..i] == parts[..i];
  }

  lemma {:induction false} ConcatOf16(parts: seq<seq<Byte>>, i: nat)
    requires i <= |parts| && AllOf16(parts)
    ensures |Concat(parts[..i])| == 16 * i
  {
    if i > 0 {
      ConcatOf16(parts, i - 1);
      ConcatStep(parts, i - 1);
    }
  }

  lemma PngsPrefix(images: seq<Image>, i: nat)
    requires i <= |images|
    ensures Pngs(images[..i]) == Pngs(images)[..i]
    ensures Data(images[..i]) == Concat(Pngs(images)[..i])
  {
  }

  lemma DataStep(images: seq<Image>, i: nat)
    requires i < |images|
    ensures Data(images[..i + 1]) == Data(images[..i]) + images[i].png
  {
    PngsPrefix(images, i);
    PngsPrefix(images, i + 1);
    ConcatStep(Pngs(images), i);
  }

  /** A declared side that is not the PNG's, or out of range, is refused. */
  method CheckImage(image: Image, i: nat) returns (bad: Option<IcoError>)
    ensures bad.None? <==> Valid(image)
    ensures bad.Some? ==> bad.value == Complaint(image, i)
  {
    var found := PngSize(image.png);
    if found.None? {
      return Some(NotAPng);
    }
    if found.value.0 != image.size || found.value.1 != image.size || image.size < 1 || image.size > 256 {
      return Some(WrongSize(i));
    }
    bad := None;
  }

  /** One image of the list: its entry goes into the directory, its bytes after the last image's. */
  method AddImage(out: array<Byte>, images: seq<Image>, i: nat, offset: nat) returns (bad: Option<IcoError>)
    requires i < |images| && Written(out[..], images, i) && offset == OffsetOf(images, i)
    modifies out
    ensures bad.None? <==> Valid(images[i])
    ensures bad.None? ==> Written(out[..], images, i + 1)
    ensures bad.Some? ==> bad.value == Complaint(images[i], i)
  {
    bad := CheckImage(images[i], i);
    if bad.Some? {
      return;
    }
    PngFits(images, i);
    ghost var b0 := out[..];
    assert EntryList(images)[i] == EntryOf(images[i], offset);
    PutEntry(out, 6 + 16 * i, images[i], offset);
    ghost var b1 := out[..];
    Put(out, offset, images[i].png);
    WrittenStep(images, i, offset, b0, b1, out[..]);
  }

  method PutHeader(out: array<Byte>, n: nat)
    requires 6 <= out.Length
    modifies out
    ensures out[..6] == Header(n)
  {
    Put(out, 0, U16(0));
    Put(out, 2, U16(1));
    Put(out, 4, U16(n));
  }

  /** The whole file when every image is good, else the complaint about the first that is not. */
  method EncodeIco(images: seq<Image>) returns (r: Result<seq<Byte>, IcoError>)
    ensures r.Success? <==> AllValid(images)
    ensures r.Success? ==> r.value == IcoBytes(images) && SizesFit(images)
    ensures r.Failure? ==> exists i: nat :: IsFirstBad(images, i) && r.error == Complaint(images[i], i)
  {
    var total := TotalLength(images);
    var out := new Byte[total](_ => 0);
    PutHeader(out, |images|);
    var offset := 6 + 16 * |images|;
    NothingWritten(out[..], images);
    for i := 0 to |images|
      invariant GoodUpTo(images, i)
      invariant Written(out[..], images, i)
      invariant offset == OffsetOf(images, i)
    {
      var bad := AddImage(out, images, i, offset);
      if bad.Some? {
        FirstBad(images, i);
        return Failure(bad.value);
      }
      GoodStep(images, i);
      DataStep(images, i);
      offset := offset + |images[i].png|;
    }
    AllWritten(out[..], images);
    assert AllValid(images);
    r := Success(out[..]);
  }

  ghost predicate IsFirstBad(images: seq<Image>, i: nat) {
    i < |images| && !Valid(images[i]) && GoodUpTo(images, i)
  }

  ghost predicate GoodUpTo(images: seq<Image>, i: nat) {
    i <= |images| && forall k | 0 <= k < i :: Valid(images[k])
  }

  lemma GoodStep(images: seq<Image>, i: nat)
    requires GoodUpTo(images, i) && i < |images| && Valid(images[i])
    ensures GoodUpTo(images, i + 1)
  {
  }

  lemma FirstBad(images: seq<Image>, i: nat)
    requires GoodUpTo(images, i) && i < |images| && !Valid(images[i])
    ensures IsFirstBad(images, i) && !AllValid(images)
  {
  }

  function Complaint(image: Image, i: nat): IcoError {
    if PngSize(image.png).None? then NotAPng else WrongSize(i)
  }

  /** The first thing told is that a file is no PNG; of a PNG of the wrong side it is told which one. */
  lemma FaultIsNamed(image: Image, i: nat)
    ensures Complaint(image, i) == NotAPng <==> !LooksLikePng(image.png)
    ensures LooksLikePng(image.png) ==> Complaint(image, i) == WrongSize(i)
  {
    SizeIsReadIff(image.png);
  }

  lemma NothingWritten(buffer: seq<Byte>, images: seq<Image>)
    requires |buffer| == 6 + 16 * |images| + |Data(images)| && buffer[..6] == Header(|images|)
    ensures Written(buffer, images, 0)
    ensures OffsetOf(images, 0) == 6 + 16 * |images|
  {
    PngsPrefix(images, 0);
  }

  lemma AllWritten(buffer: seq<Byte>, images: seq<Image>)
    requires Written(buffer, images, |images|)
    ensures buffer == IcoBytes(images)
  {
    Finished(buffer, Header(|images|), EntryList(images), Pngs(images));
  }

  lemma Finished(buffer: seq<Byte>, header: seq<Byte>, entries: seq<seq<Byte>>, pngs: seq<seq<Byte>>)
    requires UnderWay(buffer, header, entries, pngs, |entries|)
    ensures buffer == header + Concat(entries) + Concat(pngs)
  {
    assert entries[..|entries|] == entries && pngs[..|pngs|] == pngs;
    ConcatOf16(entries, |entries|);
    WholeFile(buffer, header, Concat(entries), 6 + 16 * |entries|, Concat(pngs));
  }

  lemma WholeFile(buffer: seq<Byte>, header: seq<Byte>, entries: seq<Byte>, start: nat, data: seq<Byte>)
    requires Holds(buffer, header, entries, start, data) && |header| + |entries| == start && start + |data| == |buffer|
    ensures buffer == header + entries + data
  {
    assert buffer == buffer[..|header|] + buffer[|header|..start] + buffer[start..];
  }

  method TotalLength(images: seq<Image>) returns (total: nat)
    ensures total == 6 + 16 * |images| + |Data(images)|
  {
    total := 6 + 16 * |images|;
    for i := 0 to |images|
      invariant total == 6 + 16 * |images| + |Data(images[..i])|
    {
      DataStep(images, i);
      total := total + |images[i].png|;
    }
    assert images[..|images|] == images;
  }

  lemma PngFits(images: seq<Image>, i: nat)
    requires i < |images|
    ensures |Data(images[..i])| + |images[i].png| <= |Data(images)|
  {
    PngsPrefix(images, i);
    ConcatAt(Pngs(images), i);
  }

  // ----- The reader ---------------------------------------------------------------------------

  predicate HasEntry(file: seq<Byte>, i: nat) {
    6 + 16 * (i + 1) <= |file|
  }

  function EntrySize(file: seq<Byte>, i: nat): int
    requires HasEntry(file, i)
  {
    if file[6 + 16 * i] == 0 then 256 else file[6 + 16 * i] as int
  }

  function EntryLength(file: seq<Byte>, i: nat): nat
    requires HasEntry(file, i)
  {
    ReadU32(file, 6 + 16 * i + 8)
  }

  function EntryOffset(file: seq<Byte>, i: nat): nat
    requires HasEntry(file, i)
  {
    ReadU32(file, 6 + 16 * i + 12)
  }

  /** The image an entry points at; a width of 0 means 256. */
  function ReadEntry(file: seq<Byte>, i: nat): Option<Image> {
    if !HasEntry(file, i) || EntryOffset(file, i) + EntryLength(file, i) > |file| then None
    else
      Some(Image(EntrySize(file, i), file[EntryOffset(file, i)..EntryOffset(file, i) + EntryLength(file, i)]))
  }

  function ReadEntries(file: seq<Byte>, n: nat): Option<seq<Image>> {
    if n == 0 then Some([])
    else
      var front, last := ReadEntries(file, n - 1), ReadEntry(file, n - 1);
      if front.None? || last.None? then None else Some(front.value + [last.value])
  }

  function DecodeIco(file: seq<Byte>): Option<seq<Image>> {
    if |file| < 6 || ReadU16(file, 0) != 0 || ReadU16(file, 2) != 1 then None
    else ReadEntries(file, ReadU16(file, 4))
  }

  // ----- The file as a reader sees it -----------------------------------------------------------

  lemma SliceOfFront(front: seq<Byte>, last: seq<Byte>, lo: nat, hi: nat)
    requires lo <= hi <= |front|
    ensures (front + last)[lo..hi] == front[lo..hi]
  {
  }

  /** Each part stands where the parts before it end. */
  lemma {:induction false} ConcatAt(parts: seq<seq<Byte>>, i: nat)
    requires i < |parts|
    ensures
      var at := |Concat(parts[..i])|;
      at + |parts[i]| <= |Concat(parts)| && Concat(parts)[at..at + |parts[i]|] == parts[i]
  {
    var n := |parts| - 1;
    if i < n {
      var front := parts[..n];
      ConcatAt(front, i);
      assert front[..i] == parts[..i];
      var at := |Concat(parts[..i])|;
      SliceOfFront(Concat(front), parts[n], at, at + |parts[i]|);
    }
  }

  lemma SliceOfPart(whole: seq<Byte>, at: nat, part: seq<Byte>, lo: nat, hi: nat)
    requires at + |part| <= |whole| && whole[at..at + |part|] == part && lo <= hi <= |part|
    ensures whole[at + lo..at + hi] == part[lo..hi]
  {
    var x, y := whole[at + lo..at + hi], part[lo..hi];
    forall k | 0 <= k < |x|
      ensures x[k] == y[k]
    {
      assert part[lo + k] == whole[at..at + |part|][lo + k];
    }
    assert x == y;
  }

  lemma ThreeParts(header: seq<Byte>, entries: seq<Byte>, data: seq<Byte>)
    ensures var file := header + entries + data;
            && file[..|header|] == header
            && file[|header|..|header| + |entries|] == entries
            && file[|header| + |entries|..|header| + |entries| + |data|] == data
  {
  }

  lemma EntryPart(header: seq<Byte>, entries: seq<seq<Byte>>, data: seq<Byte>, i: nat)
    requires |header| == 6 && AllOf16(entries) && i < |entries|
    ensures |header + Concat(entries)| == 6 + 16 * |entries|
    ensures (header + Concat(entries) + data)[6 + 16 * i..6 + 16 * i + 16] == entries[i]
  {
    ConcatOf16(entries, i);
    ConcatAt(entries, i);
    LengthOf16(entries);
    ThreeParts(header, Concat(entries), data);
    SliceOfPart(header + Concat(entries) + data, 6, Concat(entries), 16 * i, 16 * i + 16);
  }

  lemma LengthOf16(entries: seq<seq<Byte>>)
    requires AllOf16(entries)
    ensures |Concat(entries)| == 16 * |entries|
  {
    assert entries[..|entries|] == entries;
    ConcatOf16(entries, |entries|);
  }

  lemma ImagePart(directory: seq<Byte>, pngs: seq<seq<Byte>>, i: nat)
    requires i < |pngs|
    ensures
      var file, at := directory + Concat(pngs), |directory| + |Concat(pngs[..i])|;
      at + |pngs[i]| <= |file| && file[at..at + |pngs[i]|] == pngs[i]
  {
    ConcatAt(pngs, i);
    var file, at := directory + Concat(pngs), |Concat(pngs[..i])|;
    assert file[|directory|..|directory| + |Concat(pngs)|] == Concat(pngs);
    SliceOfPart(file, |directory|, Concat(pngs), at, at + |pngs[i]|);
  }

  lemma FileLength(images: seq<Image>)
    ensures |Header(|images|) + Concat(EntryList(images))| == 6 + 16 * |images|
    ensures |IcoBytes(images)| == 6 + 16 * |images| + |Data(images)|
  {
    LengthOf16(EntryList(images));
  }

  /** Each image starts where the one before it ends: the first after the directory, the last up to the end. */
  lemma FileIsTiled(images: seq<Image>, i: nat)
    requires i < |images|
    ensures OffsetOf(images, 0) == |Header(|images|) + Concat(EntryList(images))|
    ensures OffsetOf(images, i + 1) == OffsetOf(images, i) + |images[i].png|
    ensures OffsetOf(images, |images|) == |IcoBytes(images)|
  {
    assert images[..|images|] == images;
    FileLength(images);
    PngsPrefix(images, 0);
    DataStep(images, i);
  }

  /** And what stands there is its entry and its bytes. */
  lemma EntryInFile(images: seq<Image>, i: nat)
    requires i < |images|
    ensures |IcoBytes(images)| >= 6 + 16 * |images|
    ensures IcoBytes(images)[6 + 16 * i..6 + 16 * i + 16] == EntryList(images)[i]
  {
    FileLength(images);
    EntryPart(Header(|images|), EntryList(images), Data(images), i);
  }

  /** The first eight bytes of an entry: the side twice, no palette, nothing reserved, one plane of 32 bits. */
  predicate StartsAs(file: seq<Byte>, at: nat, size: int)
    requires at + 8 <= |file|
  {
    && file[at] as int == (if size == 256 then 0 else size) && file[at + 1] as int == file[at] as int
    && file[at + 2] == 0 && file[at + 3] == 0
    && file[at + 4] == 1 && file[at + 5] == 0
    && file[at + 6] == 32 && file[at + 7] == 0
  }

  lemma EntryStart(image: Image, offset: nat)
    requires 1 <= image.size <= 256
    ensures StartsAs(EntryOf(image, offset), 0, image.size)
  {
    LittleBytes(1);
    LittleBytes(32);
  }

  lemma StartInPlace(file: seq<Byte>, at: nat, entry: seq<Byte>, size: int)
    requires |entry| == 16 && at + 16 <= |file| && file[at..at + 16] == entry && StartsAs(entry, 0, size)
    ensures StartsAs(file, at, size)
  {
    assert forall k | 0 <= k < 16 :: file[at + k] == entry[k];
    assert file[at + 0] == entry[0];
  }

  /** Also the fields of an entry that the reader here passes over. */
  lemma EntryFields(images: seq<Image>, i: nat)
    requires i < |images| && 1 <= images[i].size <= 256
    ensures 6 + 16 * i + 16 <= |IcoBytes(images)| && StartsAs(IcoBytes(images), 6 + 16 * i, images[i].size)
  {
    EntryInFile(images, i);
    EntryStart(images[i], OffsetOf(images, i));
    StartInPlace(IcoBytes(images), 6 + 16 * i, EntryList(images)[i], images[i].size);
  }

  lemma ImageInFile(images: seq<Image>, i: nat)
    requires i < |images|
    ensures OffsetOf(images, i) + |images[i].png| <= |IcoBytes(images)|
    ensures IcoBytes(images)[OffsetOf(images, i)..OffsetOf(images, i) + |images[i].png|] == images[i].png
  {
    FileLength(images);
    PngsPrefix(images, i);
    ImagePart(Header(|images|) + Concat(EntryList(images)), Pngs(images), i);
  }

  /** Its numbers as a reader gets them: what four bytes keep of the length and of the place. */
  lemma EntryReads(image: Image, offset: nat, entry: seq<Byte>)
    requires 1 <= image.size <= 256 && entry == EntryOf(image, offset)
    ensures (if entry[0] == 0 then 256 else entry[0] as int) == image.size
    ensures ReadU32(entry, 8) == |image.png| % TWO32
    ensures ReadU32(entry, 12) == offset % TWO32
  {
    U32RoundTrip(|image.png|);
    U32RoundTrip(offset);
    ReadsAt(entry, 8, U32(|image.png|));
    ReadsAt(entry, 12, U32(offset));
  }

  /** An entry in place reads the same as on its own. */
  lemma EntryInPlace(file: seq<Byte>, i: nat, entry: seq<Byte>)
    requires |entry| == 16 && HasEntry(file, i) && file[6 + 16 * i..6 + 16 * i + 16] == entry
    ensures EntrySize(file, i) == (if entry[0] == 0 then 256 else entry[0] as int)
    ensures EntryLength(file, i) == ReadU32(entry, 8)
    ensures EntryOffset(file, i) == ReadU32(entry, 12)
  {
    var at := 6 + 16 * i;
    assert forall k | 0 <= k < 16 :: file[at + k] == entry[k];
    assert file[at + 0] == entry[0];
    SliceOfPart(file, at, entry, 8, 12);
    SliceOfPart(file, at, entry, 12, 16);
    ReadsAt(file, at + 8, entry[8..12]);
    ReadsAt(entry, 8, entry[8..12]);
    ReadsAt(file, at + 12, entry[12..16]);
    ReadsAt(entry, 12, entry[12..16]);
  }

  /** What two bytes keep of a number. */
  function Counted(n: nat): (w: nat)
    ensures w <= n
    ensures w == n <==> n < TWO16
  {
    n % TWO16
  }

  /** What four bytes keep of a number. */
  function Wrapped(n: nat): (w: nat)
    ensures w <= n
    ensures w == n <==> n < TWO32
  {
    n % TWO32
  }

  predicate StandsAt(file: seq<Byte>, at: nat, png: seq<Byte>) {
    at + |png| <= |file| && file[at..at + |png|] == png
  }

  /** The image's length fits its field, and what four bytes keep of its place is a place where its bytes stand. */
  predicate Findable(images: seq<Image>, i: nat)
    requires i < |images|
  {
    |images[i].png| < TWO32 && StandsAt(IcoBytes(images), Wrapped(OffsetOf(images, i)), images[i].png)
  }

  /** Its true place is one, when it fits the field. */
  lemma FitIsFindable(images: seq<Image>, i: nat)
    requires i < |images| && OffsetOf(images, i) < TWO32 && |images[i].png| < TWO32
    ensures Findable(images, i)
  {
    ImageInFile(images, i);
    var offset := OffsetOf(images, i);
    StandsThere(IcoBytes(images), offset, Wrapped(offset), images[i].png);
  }

  lemma StandsThere(file: seq<Byte>, offset: nat, at: nat, png: seq<Byte>)
    requires at == offset && offset + |png| <= |file| && file[offset..offset + |png|] == png
    ensures StandsAt(file, at, png)
  {
  }

  /** A reader following an entry to an image, from what the entry says. */
  lemma Follows(file: seq<Byte>, i: nat, image: Image, at: nat, length: nat)
    requires HasEntry(file, i) && EntrySize(file, i) == image.size
    requires EntryLength(file, i) == length && EntryOffset(file, i) == at
    requires length <= |image.png|
    ensures ReadEntry(file, i) == Some(image) <==> length == |image.png| && StandsAt(file, at, image.png)
  {
  }

  lemma EntrySays(images: seq<Image>, i: nat)
    requires i < |images| && 1 <= images[i].size <= 256
    ensures HasEntry(IcoBytes(images), i) && EntrySize(IcoBytes(images), i) == images[i].size
    ensures EntryLength(IcoBytes(images), i) == Wrapped(|images[i].png|)
    ensures EntryOffset(IcoBytes(images), i) == Wrapped(OffsetOf(images, i))
  {
    EntryInFile(images, i);
    EntryReads(images[i], OffsetOf(images, i), EntryList(images)[i]);
    EntryInPlace(IcoBytes(images), i, EntryList(images)[i]);
  }

  /** A reader following an entry gets the image exactly when the image can be found that way. */
  lemma ReadsEntryIff(images: seq<Image>, i: nat)
    requires i < |images| && 1 <= images[i].size <= 256
    ensures ReadEntry(IcoBytes(images), i) == Some(images[i]) <==> Findable(images, i)
  {
    EntrySays(images, i);
    Follows(IcoBytes(images), i, images[i], Wrapped(OffsetOf(images, i)), Wrapped(|images[i].png|));
  }

  predicate ReadsAs(file: seq<Byte>, i: nat, image: Image) {
    ReadEntry(file, i) == Some(image)
  }

  predicate EachReads(file: seq<Byte>, images: seq<Image>, n: nat)
    requires n <= |images|
  {
    n == 0 || (EachReads(file, images, n - 1) && ReadsAs(file, n - 1, images[n - 1]))
  }

  ghost predicate FrontIs(file: seq<Byte>, images: seq<Image>, n: nat)
    requires n <= |images|
  {
    ReadEntries(file, n) == Some(images[..n])
  }

  /** Reading the first n entries is reading each of them. */
  lemma {:induction false} ReadsEachIff(file: seq<Byte>, images: seq<Image>, n: nat)
    requires n <= |images|
    ensures FrontIs(file, images, n) <==> EachReads(file, images, n)
  {
    if n == 0 {
      assert images[..0] == [];
    } else {
      ReadsEachIff(file, images, n - 1);
      OneMoreEntry(file, images, n - 1);
    }
  }

  lemma OneMoreEntry(file: seq<Byte>, images: seq<Image>, n: nat)
    requires n < |images|
    ensures FrontIs(file, images, n + 1) <==> FrontIs(file, images, n) && ReadsAs(file, n, images[n])
  {
    var front, last := ReadEntries(file, n), ReadEntry(file, n);
    assert images[..n + 1] == images[..n] + [images[n]];
    if front.Some? && last.Some? && front.value + [last.value] == images[..n + 1] {
      EntriesCount(file, n);
      assert front.value == (front.value + [last.value])[..n];
    }
  }

  lemma {:induction false} EntriesCount(file: seq<Byte>, n: nat)
    ensures ReadEntries(file, n).Some? ==> |ReadEntries(file, n).value| == n
  {
    if n > 0 {
      EntriesCount(file, n - 1);
    }
  }

  ghost predicate HeaderSays(file: seq<Byte>, n: nat) {
    |file| >= 6 && ReadU16(file, 0) == 0 && ReadU16(file, 2) == 1 && ReadU16(file, 4) == n
  }

  lemma HeaderReads(n: nat, rest: seq<Byte>)
    ensures HeaderSays(Header(n) + rest, n % TWO16)
  {
    var file, header := Header(n) + rest, Header(n);
    assert forall k | 0 <= k < 6 :: file[k] == header[k];
    assert header[4] == U16(n)[0] && header[5] == U16(n)[1];
    U16RoundTrip(n);
  }

  lemma FileHeader(images: seq<Image>)
    ensures HeaderSays(IcoBytes(images), Counted(|images|))
  {
    var rest := Concat(EntryList(images)) + Data(images);
    assert IcoBytes(images) == Header(|images|) + rest;
    HeaderReads(|images|, rest);
  }

  lemma Decodes(file: seq<Byte>, n: nat)
    requires HeaderSays(file, n)
    ensures DecodeIco(file) == ReadEntries(file, n)
  {
  }

  /** The first n images can be found from what their entries say. */
  predicate FirstFindable(images: seq<Image>, n: nat)
    requires n <= |images|
  {
    n == 0 || (FirstFindable(images, n - 1) && Findable(images, n - 1))
  }

  lemma {:induction false} EachIsFound(images: seq<Image>, n: nat)
    requires SizesFit(images) && n <= |images|
    ensures EachReads(IcoBytes(images), images, n) <==> FirstFindable(images, n)
  {
    if n > 0 {
      EachIsFound(images, n - 1);
      ReadsEntryIff(images, n - 1);
    }
  }

  lemma {:induction false} AllFound(images: seq<Image>, n: nat)
    requires n <= |images| && forall i | 0 <= i < n :: Findable(images, i)
    ensures FirstFindable(images, n)
  {
    if n > 0 {
      AllFound(images, n - 1);
    }
  }

  /** Of the images the count can say, all come back exactly when each entry reads as its image. */
  lemma CountedImages(file: seq<Byte>, images: seq<Image>, n: nat)
    requires HeaderSays(file, n) && n <= |images|
    ensures DecodeIco(file) == Some(images[..n]) <==> EachReads(file, images, n)
  {
    Decodes(file, n);
    ReadsEachIff(file, images, n);
  }

  /**
   * What the encoder packs, a reader of the format gets back: the same sizes and the same bytes,
   * up to as many images as the two-byte count of the header can say, while lengths and places
   * fit their four bytes.
   */
  lemma ReadsBack(images: seq<Image>)
    requires SizesFit(images)
    requires forall i | 0 <= i < |images| :: OffsetOf(images, i) < TWO32 && |images[i].png| < TWO32
    ensures DecodeIco(IcoBytes(images)) == Some(images[..Counted(|images|)])
  {
    var n := Counted(|images|);
    forall i | 0 <= i < n
      ensures Findable(images, i)
    {
      FitIsFindable(images, i);
    }
    FileHeader(images);
    AllFound(images, n);
    EachIsFound(images, n);
    CountedImages(IcoBytes(images), images, n);
  }

  lemma CountIsRead(file: seq<Byte>, n: nat)
    requires HeaderSays(file, n)
    ensures DecodeIco(file).Some? ==> |DecodeIco(file).value| == n
  {
    Decodes(file, n);
    EntriesCount(file, n);
  }

  lemma DecodesIff(file: seq<Byte>, images: seq<Image>, n: nat)
    requires HeaderSays(file, n) && n == Counted(|images|)
    ensures DecodeIco(file) == Some(images) <==> |images| < TWO16 && EachReads(file, images, n)
  {
    CountIsRead(file, n);
    CountedImages(file, images, n);
    IsWhole(DecodeIco(file), images, n, EachReads(file, images, n));
  }

  /**
   * The whole list comes back exactly when its count fits the header's two bytes and every image
   * can be found from what its entry says.
   */
  lemma RoundTripIff(images: seq<Image>)
    requires SizesFit(images)
    ensures DecodeIco(IcoBytes(images)) == Some(images) <==> |images| < TWO16 && FirstFindable(images, |images|)
  {
    FileHeader(images);
    EachIsFound(images, Counted(|images|));
    DecodesIff(IcoBytes(images), images, Counted(|images|));
  }

  lemma IsWhole(read: Option<seq<Image>>, images: seq<Image>, n: nat, found: bool)
    requires n == Counted(|images|) && (read.Some? ==> |read.value| == n) && (read == Some(images[..n]) <==> found)
    ensures read == Some(images) <==> |images| < TWO16 && found
  {
    if |images| < TWO16 {
      assert images[..n] == images;
    }
  }

  /** In a file below four gigabytes every image can be found: the count alone decides. */
  lemma SmallRoundTripIff(images: seq<Image>)
    requires SizesFit(images) && |IcoBytes(images)| < TWO32
    ensures DecodeIco(IcoBytes(images)) == Some(images) <==> |images| < TWO16
  {
    forall i | 0 <= i < |images|
      ensures Findable(images, i)
    {
      ImageInFile(images, i);
      FitIsFindable(images, i);
    }
    AllFound(images, |images|);
    RoundTripIff(images);
  }
}
