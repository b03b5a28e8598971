/**
 The ObjectInfo dataset (section 3.2.3 of the MTP 1.1 specification): the printer that
 answers GetObjectInfo and the reader that unpacks what a client sends (`src/fuji/fs.c`,
 `src/pack.c`).
 */
module ObjectInfo {
  import opened Bytes
  import opened PtpStrings

  datatype Head = Head(storageId: u32, format: u16, protection: u16, compressedSize: u32)
  datatype Thumb = Thumb(format: u16, compressedSize: u32, width: u32, height: u32)
  datatype Image = Image(width: u32, height: u32, bitDepth: u32, parent: u32)
  datatype Association = Association(kind: u16, desc: u32, sequence: u32)

  /** The fields before the strings, and the strings. */
  datatype Info = Info(head: Head, thumb: Thumb, image: Image, association: Association, filename: CString,
                       created: CString, modified: CString, keywords: CString)

  const FIXED := 52
  const NAME_MAX: nat := 64
  const DATE_MAX: nat := 32

  // ---- The printer ------------------------------------------------------------------------

  function HeadBytes(h: Head): (d: seq<byte>)
    ensures |d| == 12
  {
    Le32(h.storageId) + Le16(h.format) + Le16(h.protection) + Le32(h.compressedSize)
  }

  function ThumbBytes(t: Thumb): (d: seq<byte>)
    ensures |d| == 14
  {
    Le16(t.format) + Le32(t.compressedSize) + Le32(t.width) + Le32(t.height)
  }

  function ImageBytes(i: Image): (d: seq<byte>)
    ensures |d| == 16
  {
    Le32(i.width) + Le32(i.height) + Le32(i.bitDepth) + Le32(i.parent)
  }

  function AssociationBytes(a: Association): (d: seq<byte>)
    ensures |d| == 10
  {
    Le16(a.kind) + Le32(a.desc) + Le32(a.sequence)
  }

  function FixedBytes(o: Info): (d: seq<byte>)
    ensures |d| == FIXED
  {
    HeadBytes(o.head) + ThumbBytes(o.thumb) + ImageBytes(o.image) + AssociationBytes(o.association)
  }

  function StringBytes(o: Info): seq<byte>
  {
    WriteString(o.filename) + (WriteString(o.created) + (WriteString(o.modified) + WriteString(o.keywords)))
  }

  function Pack(o: Info): seq<byte>
  {
    FixedBytes(o) + StringBytes(o)
  }

  // ---- The reader -------------------------------------------------------------------------

  function ReadHead(d: seq<byte>): Head
    requires |d| >= 12
  {
    Head(Get32(d), Get16(d[4..]), Get16(d[6..]), Get32(d[8..]))
  }

  function ReadThumb(d: seq<byte>): Thumb
    requires |d| >= 14
  {
    Thumb(Get16(d), Get32(d[2..]), Get32(d[6..]), Get32(d[10..]))
  }

  function ReadImage(d: seq<byte>): Image
    requires |d| >= 16
  {
    Image(Get32(d), Get32(d[4..]), Get32(d[8..]), Get32(d[12..]))
  }

  function ReadAssociation(d: seq<byte>): Association
    requires |d| >= 10
  {
    Association(Get16(d), Get32(d[2..]), Get32(d[6..]))
  }

  /**
   The four string buffers lie one behind the other in the record: where they start, and
   where the record ends. What the reader writes beyond one of them falls on the next.
   */
  const FILENAME: nat := 0
  const CREATED: nat := 64
  const MODIFIED: nat := 96
  const KEYWORDS: nat := 128
  const END: nat := 192

  /** That memory with the byte behind the record, and the bytes consumed so far. */
  datatype Texts = Texts(memory: seq<byte>, consumed: nat)

  /** Reads one more string, to `at`; None once the data ended too early. */
  function ReadText(t: Option<Texts>, d: seq<byte>, at: nat, max: nat): (r: Option<Texts>)
    requires t.Some? ==> t.value.consumed <= |d| && |t.value.memory| == END + 1
    requires max > 0 && at + max <= END
    ensures r.Some? ==> t.Some? && r.value.consumed <= |d| && |r.value.memory| == END + 1
  {
    if t.None? then None
    else
      match ReadString(d[t.value.consumed..], max)
      case None => None
      case Some(read) => Some(Texts(Written(t.value.memory, at, read.cells), t.value.consumed + read.consumed))
  }

  function ReadTexts(d: seq<byte>, was: seq<byte>): (r: Option<Texts>)
    requires |was| == END + 1
    ensures r.Some? ==> r.value.consumed <= |d| && |r.value.memory| == END + 1
  {
    var a := ReadText(Some(Texts(was, 0)), d, FILENAME, NAME_MAX);
    var b := ReadText(a, d, CREATED, DATE_MAX);
    var c := ReadText(b, d, MODIFIED, DATE_MAX);
    ReadText(c, d, KEYWORDS, NAME_MAX)
  }

  datatype Unpacked = Unpacked(head: Head, thumb: Thumb, image: Image, association: Association, texts: Texts)

  /** vcam_unpack_object_info, into a record whose string buffers hold `was`. */
  function Unpack(d: seq<byte>, was: seq<byte>): Option<Unpacked>
    requires |was| == END + 1
  {
    if |d| < FIXED then None
    else
      match ReadTexts(d[FIXED..], was)
      case None => None
      case Some(texts) =>
        Some(Unpacked(ReadHead(d), ReadThumb(d[12..]), ReadImage(d[26..]), ReadAssociation(d[42..]), texts))
  }

  // ---- The round trip ---------------------------------------------------------------------

  lemma HeadReads(h: Head, rest: seq<byte>)
    ensures ReadHead(HeadBytes(h) + rest) == h
  {
    hide Get32, Get16, Le32, Le16;
    var d := HeadBytes(h) + rest;
    Get32At([], h.storageId, Le16(h.format) + Le16(h.protection) + Le32(h.compressedSize) + rest);
    assert d == [] + Le32(h.storageId) + (Le16(h.format) + Le16(h.protection) + Le32(h.compressedSize) + rest);
    Get16At(Le32(h.storageId), h.format, Le16(h.protection) + Le32(h.compressedSize) + rest);
    assert d == Le32(h.storageId) + Le16(h.format) + (Le16(h.protection) + Le32(h.compressedSize) + rest);
    Get16At(Le32(h.storageId) + Le16(h.format), h.protection, Le32(h.compressedSize) + rest);
    assert d == Le32(h.storageId) + Le16(h.format) + Le16(h.protection) + (Le32(h.compressedSize) + rest);
    Get32At(Le32(h.storageId) + Le16(h.format) + Le16(h.protection), h.compressedSize, rest);
  }

  lemma ThumbReads(t: Thumb, rest: seq<byte>)
    ensures ReadThumb(ThumbBytes(t) + rest) == t
  {
    hide Get32, Get16, Le32, Le16;
    var d := ThumbBytes(t) + rest;
    Get16At([], t.format, Le32(t.compressedSize) + Le32(t.width) + Le32(t.height) + rest);
    assert d == [] + Le16(t.format) + (Le32(t.compressedSize) + Le32(t.width) + Le32(t.height) + rest);
    Get32At(Le16(t.format), t.compressedSize, Le32(t.width) + Le32(t.height) + rest);
    assert d == Le16(t.format) + Le32(t.compressedSize) + (Le32(t.width) + Le32(t.height) + rest);
    Get32At(Le16(t.format) + Le32(t.compressedSize), t.width, Le32(t.height) + rest);
    assert d == Le16(t.format) + Le32(t.compressedSize) + Le32(t.width) + (Le32(t.height) + rest);
    Get32At(Le16(t.format) + Le32(t.compressedSize) + Le32(t.width), t.height, rest);
  }

  lemma ImageReads(i: Image, rest: seq<byte>)
    ensures ReadImage(ImageBytes(i) + rest) == i
  {
    hide Get32, Get16, Le32, Le16;
    var d := ImageBytes(i) + rest;
    Get32At([], i.width, Le32(i.height) + Le32(i.bitDepth) + Le32(i.parent) + rest);
    assert d == [] + Le32(i.width) + (Le32(i.height) + Le32(i.bitDepth) + Le32(i.parent) + rest);
    Get32At(Le32(i.width), i.height, Le32(i.bitDepth) + Le32(i.parent) + rest);
    assert d == Le32(i.width) + Le32(i.height) + (Le32(i.bitDepth) + Le32(i.parent) + rest);
    Get32At(Le32(i.width) + Le32(i.height), i.bitDepth, Le32(i.parent) + rest);
    assert d == Le32(i.width) + Le32(i.height) + Le32(i.bitDepth) + (Le32(i.parent) + rest);
    Get32At(Le32(i.width) + Le32(i.height) + Le32(i.bitDepth), i.parent, rest);
  }

  lemma AssociationReads(a: Association, rest: seq<byte>)
    ensures ReadAssociation(AssociationBytes(a) + rest) == a
  {
    hide Get32, Get16, Le32, Le16;
    var d := AssociationBytes(a) + rest;
    Get16At([], a.kind, Le32(a.desc) + Le32(a.sequence) + rest);
    assert d == [] + Le16(a.kind) + (Le32(a.desc) + Le32(a.sequence) + rest);
    Get32At(Le16(a.kind), a.desc, Le32(a.sequence) + rest);
    assert d == Le16(a.kind) + Le32(a.desc) + (Le32(a.sequence) + rest);
    Get32At(Le16(a.kind) + Le32(a.desc), a.sequence, rest);
  }

  /** The fixed part stands where the reader looks, whatever the strings are. */
  lemma FixedReads(o: Info, rest: seq<byte>)
    ensures var d := FixedBytes(o) + rest;
            && d[FIXED..] == rest
            && ReadHead(d) == o.head && ReadThumb(d[12..]) == o.thumb
            && ReadImage(d[26..]) == o.image && ReadAssociation(d[42..]) == o.association
  {
    var h, t, i, a := HeadBytes(o.head), ThumbBytes(o.thumb), ImageBytes(o.image), AssociationBytes(o.association);
    HeadReads(o.head, t + i + a + rest);
    ThumbReads(o.thumb, i + a + rest);
    ImageReads(o.image, a + rest);
    AssociationReads(o.association, rest);
    hide HeadBytes, ThumbBytes, ImageBytes, AssociationBytes, ReadHead, ReadThumb, ReadImage, ReadAssociation;
    var d := FixedBytes(o) + rest;
    assert d == h + (t + i + a + rest);
    assert d[12..] == t + (i + a + rest);
    assert d[26..] == i + (a + rest);
    assert d[42..] == a + rest;
  }

  /** The dataset, field by field, and the four strings behind. */
  lemma PackedFields(o: Info)
    ensures var d := Pack(o);
            && |d| >= 52
            && Get32(d) == o.head.storageId && Get16(d[4..]) == o.head.format && Get16(d[6..]) == o.head.protection
            && Get32(d[8..]) == o.head.compressedSize
            && Get16(d[12..]) == o.thumb.format && Get32(d[14..]) == o.thumb.compressedSize
            && Get32(d[18..]) == o.thumb.width && Get32(d[22..]) == o.thumb.height
            && Get32(d[26..]) == o.image.width && Get32(d[30..]) == o.image.height && Get32(d[34..]) == o.image.bitDepth
            && Get32(d[38..]) == o.image.parent
            && Get16(d[42..]) == o.association.kind && Get32(d[44..]) == o.association.desc
            && Get32(d[48..]) == o.association.sequence
            && d[52..] == WriteString(o.filename) + (WriteString(o.created) + (WriteString(o.modified) + WriteString(o.keywords)))
  {
    FixedReads(o, StringBytes(o));
    hide Get32, Get16, WriteString, FixedBytes;
    ReadsAt(Pack(o));
  }

  /** Where the reader looks for the fields. */
  lemma ReadsAt(d: seq<byte>)
    requires |d| >= 52
    ensures ReadHead(d) == Head(Get32(d), Get16(d[4..]), Get16(d[6..]), Get32(d[8..]))
    ensures ReadThumb(d[12..]) == Thumb(Get16(d[12..]), Get32(d[14..]), Get32(d[18..]), Get32(d[22..]))
    ensures ReadImage(d[26..]) == Image(Get32(d[26..]), Get32(d[30..]), Get32(d[34..]), Get32(d[38..]))
    ensures ReadAssociation(d[42..]) == Association(Get16(d[42..]), Get32(d[44..]), Get32(d[48..]))
  {
    hide Get32, Get16;
    assert d[12..][2..] == d[14..] && d[12..][6..] == d[18..] && d[12..][10..] == d[22..];
    assert d[26..][4..] == d[30..] && d[26..][8..] == d[34..] && d[26..][12..] == d[38..];
    assert d[42..][2..] == d[44..] && d[42..][6..] == d[48..];
  }

  predicate Survives(s: CString, max: nat)
  {
    Printable(s) && |s| + 1 <= max
  }

  /** The buffer at `at` holds the string. */
  predicate FieldIs(memory: seq<byte>, at: nat, max: nat, s: CString)
  {
    at + max <= |memory| && Holds(memory[at..at + max], s, max)
  }

  predicate TextsBack(t: Option<Texts>, o: Info, n: int)
  {
    && t.Some?
    && FieldIs(t.value.memory, 0, 64, o.filename)
    && FieldIs(t.value.memory, 64, 32, o.created)
    && FieldIs(t.value.memory, 96, 32, o.modified)
    && FieldIs(t.value.memory, 128, 64, o.keywords)
    && t.value.consumed == n
  }

  /** Every field came back, and `n` bytes were consumed. */
  predicate ReadBack(u: Unpacked, o: Info, n: nat)
  {
    && u.head == o.head && u.thumb == o.thumb && u.image == o.image && u.association == o.association
    && TextsBack(Some(u.texts), o, n - 52)
  }

  /** The reader stands before the string `s`, with `rest` behind it. */
  predicate StandsAt(t: Option<Texts>, d: seq<byte>, s: CString, rest: seq<byte>)
  {
    t.Some? && t.value.consumed <= |d| && |t.value.memory| == END + 1 && d[t.value.consumed..] == WriteString(s) + rest
  }

  /** One string read: it is in its buffer exactly if it survives, and then the reader stands behind it. */
  lemma OneText(t: Option<Texts>, d: seq<byte>, at: nat, max: nat, s: CString, rest: seq<byte>)
    requires StandsAt(t, d, s, rest) && 0 < max < 255 && at + max <= END
    ensures var r := ReadText(t, d, at, max);
            && r.Some?
            && (FieldIs(r.value.memory, at, max, s) <==> Survives(s, max))
            && (Survives(s, max) ==> r.value.consumed == t.value.consumed + |WriteString(s)| && d[r.value.consumed..] == rest)
            && r.value.memory[END] == (if at + max == END && LengthByte(s) >= max then 0 else t.value.memory[END])
  {
    StringSurvivesIff(s, max, rest);
    ReadOfWrite(s, max, rest);
    var cells := ReadString(WriteString(s) + rest, max).value.cells;
    FieldOfCells(t.value.memory, at, max, cells, s);
    BehindText(d, t.value.consumed, WriteString(s), rest);
    LastOfCells(t.value.memory, at, cells);
    hide WriteString, ReadString, Holds, Printable, FieldIs, Written, LengthByte;
  }

  lemma LastOfCells(memory: seq<byte>, at: nat, cells: seq<byte>)
    requires at + |cells| <= |memory| && cells != []
    ensures var r, last := Written(memory, at, cells), |memory| - 1;
            r[last] == if at + |cells| == |memory| then cells[|cells| - 1] else memory[last]
  {
  }

  /** What is behind a short string's terminator does not matter. */
  lemma FieldOfCells(memory: seq<byte>, at: nat, max: nat, cells: seq<byte>, s: CString)
    requires 0 < |cells| <= max + 1 && at + max < |memory| && cells[|cells| - 1] == 0
    ensures FieldIs(Written(memory, at, cells), at, max, s) <==> Holds(cells, s, max)
  {
    var m := Written(memory, at, cells);
    var field := m[at..at + max];
    assert forall i :: 0 <= i < |cells| && i < max ==> field[i] == cells[i];
    if |s| < max && |s| >= |cells| {
      assert field[..|s|][|cells| - 1] == 0;
    } else if |s| < max {
      assert field[..|s|] == cells[..|s|];
    }
  }

  lemma BehindText(d: seq<byte>, n: nat, w: seq<byte>, rest: seq<byte>)
    requires n <= |d| && d[n..] == w + rest
    ensures n + |w| <= |d| && d[n + |w|..] == rest
  {
  }

  /** Reading on leaves the buffers in front alone. */
  lemma FrontStays(t: Option<Texts>, d: seq<byte>, at: nat, max: nat, front: nat, room: nat, s: CString)
    requires t.Some? ==> t.value.consumed <= |d| && |t.value.memory| == END + 1
    requires 0 < max && at + max <= END && front + room <= at
    requires ReadText(t, d, at, max).Some?
    ensures t.Some?
    ensures FieldIs(ReadText(t, d, at, max).value.memory, front, room, s) <==> FieldIs(t.value.memory, front, room, s)
  {
    var m, m' := t.value.memory, ReadText(t, d, at, max).value.memory;
    hide ReadString, Holds;
    assert m'[front..front + room] == m[front..front + room];
  }

  /** The four strings in turn: the first that does not survive is not in its buffer at the end either. */
  lemma TextsSurviveIff(o: Info, d: seq<byte>, rest: seq<byte>, was: seq<byte>)
    requires |was| == END + 1 && d == StringBytes(o) + rest
    ensures TextsBack(ReadTexts(d, was), o, |StringBytes(o)|) <==>
            && Survives(o.filename, NAME_MAX) && Survives(o.created, DATE_MAX)
            && Survives(o.modified, DATE_MAX) && Survives(o.keywords, NAME_MAX)
    ensures Survives(o.filename, NAME_MAX) && Survives(o.created, DATE_MAX) && Survives(o.modified, DATE_MAX) ==>
              ReadTexts(d, was).Some?
              && ReadTexts(d, was).value.memory[END] == if LengthByte(o.keywords) >= NAME_MAX then 0 else was[END]
  {
    hide WriteString, ReadText, FieldIs, Survives, LengthByte;
    var wb, wc, we := WriteString(o.created), WriteString(o.modified), WriteString(o.keywords);
    assert d[0..] == d == WriteString(o.filename) + (wb + (wc + (we + rest)));
    var z := Some(Texts(was, 0));
    var a := ReadText(z, d, FILENAME, NAME_MAX);
    var b := ReadText(a, d, CREATED, DATE_MAX);
    var c := ReadText(b, d, MODIFIED, DATE_MAX);
    var e := ReadText(c, d, KEYWORDS, NAME_MAX);
    OneText(z, d, FILENAME, NAME_MAX, o.filename, wb + (wc + (we + rest)));
    if Survives(o.filename, NAME_MAX) {
      OneText(a, d, CREATED, DATE_MAX, o.created, wc + (we + rest));
      if Survives(o.created, DATE_MAX) {
        OneText(b, d, MODIFIED, DATE_MAX, o.modified, we + rest);
        if Survives(o.modified, DATE_MAX) {
          OneText(c, d, KEYWORDS, NAME_MAX, o.keywords, rest);
        }
      }
    }
    if e.Some? {
      FrontStays(c, d, KEYWORDS, NAME_MAX, MODIFIED, DATE_MAX, o.modified);
      FrontStays(c, d, KEYWORDS, NAME_MAX, CREATED, DATE_MAX, o.created);
      FrontStays(c, d, KEYWORDS, NAME_MAX, FILENAME, NAME_MAX, o.filename);
      FrontStays(b, d, MODIFIED, DATE_MAX, CREATED, DATE_MAX, o.created);
      FrontStays(b, d, MODIFIED, DATE_MAX, FILENAME, NAME_MAX, o.filename);
      FrontStays(a, d, CREATED, DATE_MAX, FILENAME, NAME_MAX, o.filename);
    }
  }

  /**
   Unpacking a packed ObjectInfo gives every field back, with bytes consumed = bytes
   written, exactly if each string is printable and fits its buffer: a terminator too many
   behind one of the first three strings falls on the buffer of the next and is written
   over. Behind the last it falls on the byte behind the record, exactly if the keywords
   leave no cell to spare.
   */
  lemma UnpackPackIff(o: Info, rest: seq<byte>, was: seq<byte>)
    requires |was| == END + 1
    ensures var u := Unpack(Pack(o) + rest, was);
            u.Some? && ReadBack(u.value, o, |Pack(o)|) <==>
            && Survives(o.filename, 64) && Survives(o.created, 32) && Survives(o.modified, 32) && Survives(o.keywords, 64)
    ensures var u := Unpack(Pack(o) + rest, was);
            Survives(o.filename, 64) && Survives(o.created, 32) && Survives(o.modified, 32) ==>
              u.Some? && |u.value.texts.memory| == 193
              && u.value.texts.memory[192] == if (|o.keywords| + 1) % 0x100 >= 64 then 0 else was[192]
  {
    hide ReadTexts, StringBytes, FixedBytes, Survives, ReadHead, ReadThumb, ReadImage, ReadAssociation, FieldIs;
    TextsSurviveIff(o, StringBytes(o) + rest, rest, was);
    FixedReads(o, StringBytes(o) + rest);
    assert Pack(o) + rest == FixedBytes(o) + (StringBytes(o) + rest);
  }

  // ---- The loops --------------------------------------------------------------------------

  method PutHead(buf: array<byte>, at: nat, h: Head) returns (of: nat)
    requires at + 12 <= buf.Length
    modifies buf
    ensures of == at + 12 && buf[..of] == old(buf[..at]) + HeadBytes(h)
  {
    hide Le32, Le16;
    ghost var was := buf[..at];
    of := Put32(buf, at, h.storageId);
    of := Put16(buf, of, h.format);
    of := Put16(buf, of, h.protection);
    of := Put32(buf, of, h.compressedSize);
    assert was + Le32(h.storageId) + Le16(h.format) + Le16(h.protection) + Le32(h.compressedSize) == was + HeadBytes(h);
  }

  method PutThumb(buf: array<byte>, at: nat, t: Thumb) returns (of: nat)
    requires at + 14 <= buf.Length
    modifies buf
    ensures of == at + 14 && buf[..of] == old(buf[..at]) + ThumbBytes(t)
  {
    hide Le32, Le16;
    ghost var was := buf[..at];
    of := Put16(buf, at, t.format);
    of := Put32(buf, of, t.compressedSize);
    of := Put32(buf, of, t.width);
    of := Put32(buf, of, t.height);
    assert was + Le16(t.format) + Le32(t.compressedSize) + Le32(t.width) + Le32(t.height) == was + ThumbBytes(t);
  }

  method PutImage(buf: array<byte>, at: nat, i: Image) returns (of: nat)
    requires at + 16 <= buf.Length
    modifies buf
    ensures of == at + 16 && buf[..of] == old(buf[..at]) + ImageBytes(i)
  {
    hide Le32, Le16;
    ghost var was := buf[..at];
    of := Put32(buf, at, i.width);
    of := Put32(buf, of, i.height);
    of := Put32(buf, of, i.bitDepth);
    of := Put32(buf, of, i.parent);
    assert was + Le32(i.width) + Le32(i.height) + Le32(i.bitDepth) + Le32(i.parent) == was + ImageBytes(i);
  }

  method PutAssociation(buf: array<byte>, at: nat, a: Association) returns (of: nat)
    requires at + 10 <= buf.Length
    modifies buf
    ensures of == at + 10 && buf[..of] == old(buf[..at]) + AssociationBytes(a)
  {
    hide Le32, Le16;
    ghost var was := buf[..at];
    of := Put16(buf, at, a.kind);
    of := Put32(buf, of, a.desc);
    of := Put32(buf, of, a.sequence);
    assert was + Le16(a.kind) + Le32(a.desc) + Le32(a.sequence) == was + AssociationBytes(a);
  }

  /** The printer of ptp_fuji_getobjectinfo. */
  method PrintInfo(buf: array<byte>, o: Info) returns (of: nat)
    requires |Pack(o)| <= buf.Length
    modifies buf
    ensures of == |Pack(o)| && buf[..of] == Pack(o)
  {
    hide FixedBytes, WriteString;
    of := PrintFixed(buf, o);
    of := PtpWriteString(buf, of, o.filename);
    of := PtpWriteString(buf, of, o.created);
    of := PtpWriteString(buf, of, o.modified);
    of := PtpWriteString(buf, of, o.keywords);
    OneAfterTheOther(FixedBytes(o), WriteString(o.filename), WriteString(o.created), WriteString(o.modified),
                     WriteString(o.keywords));
  }

  method PrintFixed(buf: array<byte>, o: Info) returns (of: nat)
    requires FIXED <= buf.Length
    modifies buf
    ensures of == FIXED && buf[..of] == FixedBytes(o)
  {
    hide HeadBytes, ThumbBytes, ImageBytes, AssociationBytes;
    assert buf[..0] == [] && [] + HeadBytes(o.head) == HeadBytes(o.head);
    of := PutHead(buf, 0, o.head);
    of := PutThumb(buf, of, o.thumb);
    of := PutImage(buf, of, o.image);
    of := PutAssociation(buf, of, o.association);
  }

  lemma OneAfterTheOther(f: seq<byte>, a: seq<byte>, b: seq<byte>, c: seq<byte>, d: seq<byte>)
    ensures f + a + b + c + d == f + (a + (b + (c + d)))
  {
  }

  /** vcam_unpack_object_info; `oi` is the record's string buffers and the byte behind them. */
  method VcamUnpackObjectInfo(d: seq<byte>, oi: array<byte>)
    returns (head: Head, thumb: Thumb, image: Image, association: Association, of: nat)
    requires oi.Length == END + 1 && Unpack(d, oi[..]).Some?
    modifies oi
    ensures FIXED <= of
    ensures Unpack(d, old(oi[..])).value == Unpacked(head, thumb, image, association, Texts(oi[..], of - FIXED))
  {
    hide ReadString, Get32, Get16;
    assert FIXED == 52;
    var dp := d;
    head, dp := ReadHead(dp), dp[12..];
    thumb, dp := ReadThumb(dp), dp[14..];
    assert dp == d[26..];
    image, dp := ReadImage(dp), dp[16..];
    assert dp == d[42..];
    association, dp := ReadAssociation(dp), dp[10..];
    assert dp == d[FIXED..];
    of := ReadStrings(dp, oi);
    of := FIXED + of;
  }

  method ReadStrings(d: seq<byte>, oi: array<byte>) returns (of: nat)
    requires oi.Length == END + 1 && ReadTexts(d, oi[..]).Some?
    modifies oi
    ensures ReadTexts(d, old(oi[..])) == Some(Texts(oi[..], of))
  {
    hide ReadString, Written;
    assert d[0..] == d;
    of := PtpReadString(d, oi, FILENAME, NAME_MAX);
    var n := PtpReadString(d[of..], oi, CREATED, DATE_MAX);
    of := of + n;
    n := PtpReadString(d[of..], oi, MODIFIED, DATE_MAX);
    of := of + n;
    n := PtpReadString(d[of..], oi, KEYWORDS, NAME_MAX);
    of := of + n;
  }
}
