/**
 `SimpleDBFReader` (src/labels.cpp): the dBase III attribute table that
 accompanies a Shapefile, decoded from the bytes of the file.

 Layout: a 32-byte header (record count, header length and record length,
 little-endian), then 32-byte field descriptors, then fixed-length records
 starting at the header length. Byte 0 of every record is the deletion flag,
 so the first field starts at byte 1 of the record.
 */
module Dbf {

  import opened Wrappers
  import opened Bytes
  import opened Text

  const HeaderBytes: nat := 32
  const DescriptorBytes: nat := 32
  /** Bytes of a descriptor holding the (NUL-padded) field name. */
  const NameBytes: nat := 11
  /** Position of the field-length byte inside a descriptor. */
  const LengthByte: nat := 16
  /** A descriptor starting with this byte ends the descriptor array. */
  const Terminator: Byte := 0x0D
  /** Offset of the first field inside a record: byte 0 is the deletion flag. */
  const FirstFieldOffset: nat := 1

  // ---------------------------------------------------------------- header

  datatype Header = Header(numRecords: nat, headerSize: nat, recordSize: nat)

  /** The three header words the reader copies out (src/labels.cpp:85-87). */
  function ReadHeader(bytes: seq<Byte>): (h: Header)
    requires |bytes| >= HeaderBytes
  {
    Header(U32At(bytes, 4), U16At(bytes, 8), U16At(bytes, 10))
  }

  /**
   The header words are the little-endian readings of bytes 4..8, 8..10 and
   10..12: writing them back gives exactly those bytes.
   */
  lemma HeaderWords(bytes: seq<Byte>)
    requires |bytes| >= HeaderBytes
    ensures var h := ReadHeader(bytes);
            && h.numRecords < U32Limit && h.headerSize < U16Limit && h.recordSize < U16Limit
            && EncodeU32(h.numRecords) == bytes[4..8]
            && EncodeU16(h.headerSize) == bytes[8..10]
            && EncodeU16(h.recordSize) == bytes[10..12]
  {
    EncodeDecodeU32(bytes, 4);
    EncodeDecodeU16(bytes, 8);
    EncodeDecodeU16(bytes, 10);
  }

  // ------------------------------------------------------- field descriptors

  /** One field descriptor as the reader sees it: lower-cased name and length byte. */
  datatype Descriptor = Descriptor(name: string, length: Byte)

  /**
   The descriptor at `pos`: the 11 name bytes cut at the first NUL and
   lower-cased, and the unsigned length byte at offset 16.
   */
  function DescriptorAt(bytes: seq<Byte>, pos: nat): (d: Descriptor)
    requires pos + DescriptorBytes <= |bytes|
    ensures d.length == bytes[pos + LengthByte]
    ensures |d.name| <= NameBytes
    ensures '\0' !in d.name && IsLowerCase(d.name)
  {
    Descriptor(Lower(CString(Latin1(bytes[pos..pos + NameBytes]))), bytes[pos + LengthByte])
  }

  /**
   The descriptor loop keeps reading while the stream position is below
   `headerSize - 1`; it reads a whole descriptor before looking at its first
   byte.
   */
  predicate KeepsScanning(pos: nat, headerSize: nat) {
    pos + 1 < headerSize
  }

  /**
   The descriptor loop (src/labels.cpp:92-122) with the end of the file as a
   stop: the scan from `pos` ends when the position reaches `headerSize - 1`,
   when the next descriptor would run past the end of the file, or when a
   descriptor starts with the terminator byte. The source stops at the
   terminator and at `headerSize - 1` but not at the end of the file; see
   `DescriptorLoopAsWritten`.
   */
  function ScanDescriptors(bytes: seq<Byte>, pos: nat, headerSize: nat): (ds: seq<Descriptor>)
    decreases headerSize - pos
  {
    if !KeepsScanning(pos, headerSize) || pos + DescriptorBytes > |bytes| || bytes[pos] == Terminator then []
    else [DescriptorAt(bytes, pos)] + ScanDescriptors(bytes, pos + DescriptorBytes, headerSize)
  }

  /** The start of the k-th descriptor read from `pos`. */
  function Slot(pos: nat, k: nat): nat {
    pos + DescriptorBytes * k
  }

  /**
   What the scan reads: the k-th descriptor sits at `pos + 32 * k`, below
   `headerSize - 1`, inside the file, and is not the terminator; the scan
   stops where the next one would start at or past `headerSize - 1`, would
   run past the end of the file, or starts with the terminator byte.
   */
  lemma {:induction false} ScanDescriptorsSpec(bytes: seq<Byte>, pos: nat, headerSize: nat)
    ensures var ds := ScanDescriptors(bytes, pos, headerSize);
            forall k :: 0 <= k < |ds| ==>
              && KeepsScanning(Slot(pos, k), headerSize)
              && Slot(pos, k) + DescriptorBytes <= |bytes|
              && bytes[Slot(pos, k)] != Terminator
              && ds[k] == DescriptorAt(bytes, Slot(pos, k))
    ensures var ds := ScanDescriptors(bytes, pos, headerSize);
            var end := Slot(pos, |ds|);
            || !KeepsScanning(end, headerSize)
            || end + DescriptorBytes > |bytes|
            || bytes[end] == Terminator
    decreases headerSize - pos
  {
    if KeepsScanning(pos, headerSize) && pos + DescriptorBytes <= |bytes| && bytes[pos] != Terminator {
      var next := pos + DescriptorBytes;
      ScanDescriptorsSpec(bytes, next, headerSize);
      var ds := ScanDescriptors(bytes, pos, headerSize);
      var rest := ScanDescriptors(bytes, next, headerSize);
      assert ds == [DescriptorAt(bytes, pos)] + rest;
      forall k | 0 < k <= |rest|
        ensures Slot(pos, k) == Slot(next, k - 1)
      {
      }
    }
  }

  /**
   The descriptor scan ended on a short read: the stream is then in its
   fail state, so the `seekg` to the records does nothing and every record
   read gets no bytes.
   */
  predicate StreamFails(bytes: seq<Byte>, headerSize: nat) {
    var end := Slot(HeaderBytes, |ScanDescriptors(bytes, HeaderBytes, headerSize)|);
    KeepsScanning(end, headerSize) && end + DescriptorBytes > |bytes|
  }

  /**
   The descriptor loop exactly as written, run for at most `fuel` rounds;
   `None` means it is still running. `pos` is what `tellg()` answers: -1 once
   a short read has put the stream in its fail state. After that every read
   gets nothing, the position stays -1, which is below `headerSize - 1`, and
   the uninitialised first byte of the descriptor buffer is taken not to be
   the terminator, so the loop goes round again.
   */
  function DescriptorLoopAsWritten(bytes: seq<Byte>, pos: int, headerSize: nat, fuel: nat)
    : (r: Option<seq<Descriptor>>)
    decreases fuel
  {
    if fuel == 0 then None
    else if !(pos < headerSize - 1) then Some([])
    else if pos < 0 then DescriptorLoopAsWritten(bytes, pos, headerSize, fuel - 1)
    else if pos + DescriptorBytes > |bytes| then
      if pos < |bytes| && bytes[pos] == Terminator then Some([])
      else DescriptorLoopAsWritten(bytes, -1, headerSize, fuel - 1)
    else if bytes[pos] == Terminator then Some([])
    else match DescriptorLoopAsWritten(bytes, pos + DescriptorBytes, headerSize, fuel - 1)
      case None => None
      case Some(rest) => Some([DescriptorAt(bytes, pos)] + rest)
  }

  /** Once the stream has failed, the loop as written never finishes. */
  lemma {:induction false} FailedLoopNeverEnds(bytes: seq<Byte>, headerSize: nat, fuel: nat)
    requires headerSize > 0
    ensures DescriptorLoopAsWritten(bytes, -1, headerSize, fuel).None?
    decreases fuel
  {
    if fuel > 0 {
      FailedLoopNeverEnds(bytes, headerSize, fuel - 1);
    }
  }

  /**
   A descriptor array cut off by the end of the file, before `headerSize - 1`
   and without a terminator in the last partial descriptor, makes the loop as
   written run forever, whatever number of rounds one waits for.
   */
  lemma {:induction false} CutOffLoopNeverEnds(bytes: seq<Byte>, pos: nat, headerSize: nat, fuel: nat)
    requires KeepsScanning(pos, headerSize)
    requires pos + DescriptorBytes > |bytes|
    requires pos >= |bytes| || bytes[pos] != Terminator
    ensures DescriptorLoopAsWritten(bytes, pos, headerSize, fuel).None?
  {
    if fuel > 0 {
      FailedLoopNeverEnds(bytes, headerSize, fuel - 1);
    }
  }

  /**
   A 40-byte file whose header length is 100 and whose first descriptor is
   cut off after 8 bytes: the loop as written never finishes, the scan with
   the end-of-file stop reads no descriptor.
   */
  lemma TruncatedDescriptorsExample(fuel: nat)
    ensures var bytes := seq(40, i => if i == 8 then 100 else if i == 32 then 0x41 else 0);
            && ReadHeader(bytes).headerSize == 100
            && DescriptorLoopAsWritten(bytes, HeaderBytes, 100, fuel).None?
            && ScanDescriptors(bytes, HeaderBytes, 100) == []
  {
    var bytes: seq<Byte> := seq(40, i => if i == 8 then 100 else if i == 32 then 0x41 else 0);
    assert bytes[8] == 100 && bytes[9] == 0 && bytes[32] == 0x41;
    CutOffLoopNeverEnds(bytes, HeaderBytes, 100, fuel);
  }

  /**
   A descriptor scan that ends in a short read leaves the stream failed, and
   the reader then returns no rows when records have a length. When the
   short read starts with the terminator the source gets here too (see
   `ShortTerminatorExample`); when it does not, the loop as written never
   ends (`CutOffLoopNeverEnds`), so for that case this is a fact about the
   corrected scan.
   */
  lemma FailedScanGivesNoRows(bytes: seq<Byte>)
    requires |bytes| >= HeaderBytes
    requires StreamFails(bytes, ReadHeader(bytes).headerSize) && ReadHeader(bytes).recordSize > 0
    ensures Loadable(bytes) && Parse(bytes) == []
  {
  }

  /**
   A 40-byte file declaring one 10-byte record behind a 100-byte header,
   whose descriptor array is a terminator in a short read: the loop as
   written stops at once, and the file loads with no rows.
   */
  lemma ShortTerminatorExample()
    ensures var bytes := seq(40, i => if i == 4 then 1 else if i == 8 then 100 else if i == 10 then 10
                                      else if i == 32 then 0x0D else 0);
            && ReadHeader(bytes) == Header(1, 100, 10)
            && DescriptorLoopAsWritten(bytes, HeaderBytes, 100, 1) == Some([])
            && Loadable(bytes) && Parse(bytes) == []
  {
    var bytes: seq<Byte> := seq(40, i => if i == 4 then 1 else if i == 8 then 100 else if i == 10 then 10
                                        else if i == 32 then 0x0D else 0);
    assert bytes[4..12] == [1, 0, 0, 0, 100, 0, 10, 0];
    assert ScanDescriptors(bytes, HeaderBytes, 100) == [];
    FailedScanGivesNoRows(bytes);
  }

  /**
   Wherever the loop as written finishes, the scan with the end-of-file stop
   reads the same descriptors; it differs only where the source never ends.
   */
  lemma {:induction false} ScanAgreesWithAsWritten(bytes: seq<Byte>, pos: nat, headerSize: nat, fuel: nat)
    requires DescriptorLoopAsWritten(bytes, pos, headerSize, fuel).Some?
    ensures DescriptorLoopAsWritten(bytes, pos, headerSize, fuel).value == ScanDescriptors(bytes, pos, headerSize)
    decreases fuel
  {
    if KeepsScanning(pos, headerSize) && pos + DescriptorBytes > |bytes| && !(pos < |bytes| && bytes[pos] == Terminator) {
      FailedLoopNeverEnds(bytes, headerSize, fuel - 1);
      assert false;
    } else if KeepsScanning(pos, headerSize) && pos + DescriptorBytes <= |bytes| && bytes[pos] != Terminator {
      ScanAgreesWithAsWritten(bytes, pos + DescriptorBytes, headerSize, fuel - 1);
    }
  }

  // ------------------------------------------------------- field selection

  /** The three columns the labels need. */
  datatype Role = NameRole | TypeRole | SubtypeRole

  /** A column is recognised by this lower-case prefix of its name. */
  function Prefix(role: Role): string {
    match role
    case NameRole => "name"
    case TypeRole => "type"
    case SubtypeRole => "subtype"
  }

  /** Where a column sits inside a record. */
  datatype Field = Field(offset: nat, length: nat)

  /** The located columns; `None` is the source's `offset == -1`. */
  datatype Layout = Layout(name: Option<Field>, kind: Option<Field>, subtype: Option<Field>) {

    function Get(role: Role): Option<Field> {
      match role
      case NameRole => name
      case TypeRole => kind
      case SubtypeRole => subtype
    }
  }

  const NoFields: Layout := Layout(None, None, None)

  /**
   One pass of the descriptor loop body (src/labels.cpp:103-119): every column
   whose prefix the name starts with is overwritten with this field.
   */
  function Assign(layout: Layout, d: Descriptor, offset: nat): (r: Layout)
    ensures forall role: Role :: r.Get(role)
              == if StartsWith(d.name, Prefix(role)) then Some(Field(offset, d.length)) else layout.Get(role)
  {
    var f := Some(Field(offset, d.length));
    var l1 := if StartsWith(d.name, "name") then layout.(name := f) else layout;
    var l2 := if StartsWith(d.name, "type") then l1.(kind := f) else l1;
    if StartsWith(d.name, "subtype") then l2.(subtype := f) else l2
  }

  /** The descriptor loop with its running offset `currentOffset` (src/labels.cpp:90, 103-121). */
  function LocateFields(ds: seq<Descriptor>, offset: nat, layout: Layout): Layout
  {
    if ds == [] then layout
    else LocateFields(ds[1..], offset + ds[0].length, Assign(layout, ds[0], offset))
  }

  /** The columns located from a descriptor list, starting after the deletion flag. */
  function FieldsOf(ds: seq<Descriptor>): Layout {
    LocateFields(ds, FirstFieldOffset, NoFields)
  }

  /** Total length of a list of fields. */
  function SumLengths(ds: seq<Descriptor>): nat {
    if ds == [] then 0 else ds[0].length + SumLengths(ds[1..])
  }

  /**
   The position of the last descriptor whose name starts with `p`, or `None`
   when none does.
   */
  function LastMatch(ds: seq<Descriptor>, p: string): (m: Option<nat>)
    ensures m.Some? ==> m.value < |ds| && StartsWith(ds[m.value].name, p)
    ensures m.Some? ==> forall j :: m.value < j < |ds| ==> !StartsWith(ds[j].name, p)
    ensures m.None? ==> forall j :: 0 <= j < |ds| ==> !StartsWith(ds[j].name, p)
  {
    if ds == [] then None
    else match LastMatch(ds[1..], p)
      case Some(k) => Some(k + 1)
      case None => if StartsWith(ds[0].name, p) then Some(0) else None
  }

  /** The loop from any starting offset and layout, column by column. */
  lemma {:induction false} LocateFieldsSpec(ds: seq<Descriptor>, offset: nat, layout: Layout, role: Role)
    ensures LocateFields(ds, offset, layout).Get(role)
            == match LastMatch(ds, Prefix(role))
               case None => layout.Get(role)
               case Some(k) => Some(Field(offset + SumLengths(ds[..k]), ds[k].length))
  {
    if ds != [] {
      var rest := ds[1..];
      LocateFieldsSpec(rest, offset + ds[0].length, Assign(layout, ds[0], offset), role);
      match LastMatch(rest, Prefix(role))
      case Some(k) =>
        assert ds[..k + 1][1..] == rest[..k];
        assert ds[k + 1] == rest[k];
      case None =>
        assert ds[..0] == [];
    }
  }

  /**
   Each recognised column's offset is 1 plus the lengths of all descriptors
   before it, and the LAST descriptor with the column's prefix wins; a column
   no descriptor names stays absent.
   */
  lemma FieldOffsets(ds: seq<Descriptor>, role: Role)
    ensures FieldsOf(ds).Get(role)
            == match LastMatch(ds, Prefix(role))
               case None => None
               case Some(k) => Some(Field(FirstFieldOffset + SumLengths(ds[..k]), ds[k].length))
  {
    LocateFieldsSpec(ds, FirstFieldOffset, NoFields, role);
  }

  // ---------------------------------------------------------------- records

  /** One row of the table: `name` as stored, `kind` and `subtype` lower-cased. */
  datatype Record = Record(name: string, kind: string, subtype: string)

  /** The `type` value used when the table has no `type` column. */
  const DefaultKind: string := "default"

  /** Lower-casing the default leaves it as it is. */
  lemma LowerDefault()
    ensures Lower(DefaultKind) == DefaultKind
  {
    LowerOfLowerCase(DefaultKind);
  }

  predicate FitsIn(f: Option<Field>, recordSize: nat) {
    f.None? || f.value.offset + f.value.length <= recordSize
  }

  /**
   Every located column lies inside the record. The reader does not check
   this (src/labels.cpp:134-143); a column that overruns reads past the end
   of its record buffer.
   */
  predicate LayoutFits(layout: Layout, recordSize: nat) {
    FitsIn(layout.name, recordSize) && FitsIn(layout.kind, recordSize) && FitsIn(layout.subtype, recordSize)
  }

  /** The cleaned text of a located column, `None` for an absent one. */
  function FieldText(rec: seq<Byte>, f: Option<Field>): (t: Option<string>)
    requires FitsIn(f, |rec|)
    ensures t.Some? <==> f.Some?
  {
    match f
    case None => None
    case Some(f) => Some(CleanString(Latin1(rec[f.offset..f.offset + f.length])))
  }

  /**
   What every decoded row looks like: absent columns give their defaults and
   `kind` and `subtype` contain no upper-case letters.
   */
  predicate Conforms(r: Record, layout: Layout) {
    && (layout.name.None? ==> r.name == "")
    && (layout.kind.None? ==> r.kind == DefaultKind)
    && (layout.subtype.None? ==> r.subtype == "")
    && IsLowerCase(r.kind)
    && IsLowerCase(r.subtype)
  }

  /** One record buffer decoded into a row (src/labels.cpp:132-148). */
  function DecodeRecord(rec: seq<Byte>, layout: Layout): (r: Record)
    requires LayoutFits(layout, |rec|)
    ensures Conforms(r, layout)
    ensures layout.name.Some? ==> r.name == FieldText(rec, layout.name).value
    ensures layout.kind.Some? ==> r.kind == Lower(FieldText(rec, layout.kind).value)
    ensures layout.subtype.Some? ==> r.subtype == Lower(FieldText(rec, layout.subtype).value)
  {
    LowerDefault();
    Record(
      FieldText(rec, layout.name).GetOr(""),
      Lower(FieldText(rec, layout.kind).GetOr(DefaultKind)),
      Lower(FieldText(rec, layout.subtype).GetOr("")))
  }

  /**
   The record loop decodes at least one record: one is declared and the
   first block is complete (or records are empty, when `gcount() < 0` can
   never hold).
   */
  predicate DecodesARecord(fileLen: nat, start: nat, recordSize: nat, declared: nat) {
    declared > 0 && (recordSize == 0 || start + recordSize <= fileLen)
  }

  /** The record buffer at `start`: empty for a zero record length. */
  function RecordBytes(bytes: seq<Byte>, start: nat, recordSize: nat): (rec: seq<Byte>)
    requires recordSize == 0 || start + recordSize <= |bytes|
    ensures |rec| == recordSize
    ensures recordSize > 0 ==> rec == bytes[start..start + recordSize]
  {
    if recordSize == 0 then [] else bytes[start..start + recordSize]
  }

  /**
   The reads of the record loop (src/labels.cpp:124-130): up to `remaining`
   blocks of `recordSize` bytes from `start`, stopping silently at the first
   short read.
   */
  function RecordBlocks(bytes: seq<Byte>, start: nat, recordSize: nat, remaining: nat)
    : (blocks: seq<seq<Byte>>)
    ensures |blocks| <= remaining
    ensures forall k :: 0 <= k < |blocks| ==> |blocks[k]| == recordSize
    ensures |blocks| > 0 ==> DecodesARecord(|bytes|, start, recordSize, remaining)
    decreases remaining
  {
    if !DecodesARecord(|bytes|, start, recordSize, remaining) then []
    else [RecordBytes(bytes, start, recordSize)] + RecordBlocks(bytes, start + recordSize, recordSize, remaining - 1)
  }

  /** Every block read is decoded into a row with the located columns (src/labels.cpp:132-150). */
  function DecodeAll(blocks: seq<seq<Byte>>, layout: Layout): (rows: seq<Record>)
    requires forall k :: 0 <= k < |blocks| ==> LayoutFits(layout, |blocks[k]|)
    ensures |rows| == |blocks|
    ensures forall k :: 0 <= k < |rows| ==> Conforms(rows[k], layout)
  {
    seq(|blocks|, k requires 0 <= k < |blocks| => DecodeRecord(blocks[k], layout))
  }

  /**
   Where the k-th record block after `start` begins, walking one record
   length at a time as the loop's sequential reads do.
   */
  function Block(start: nat, recordSize: nat, k: nat): nat
    decreases k
  {
    if k == 0 then start else Block(start + recordSize, recordSize, k - 1)
  }

  /** The walk lands where the multiplication says. */
  lemma {:induction false} BlockIsProduct(start: nat, recordSize: nat, k: nat)
    ensures Block(start, recordSize, k) == start + k * recordSize
    decreases k
  {
    if k > 0 {
      BlockIsProduct(start + recordSize, recordSize, k - 1);
      assert start + recordSize + (k - 1) * recordSize == start + k * recordSize;
    }
  }

  /** Later blocks start no earlier. */
  lemma {:induction false} BlockMono(start: nat, recordSize: nat, j: nat, k: nat)
    requires j <= k
    ensures Block(start, recordSize, j) <= Block(start, recordSize, k)
    decreases k
  {
    if j > 0 {
      BlockMono(start + recordSize, recordSize, j - 1, k - 1);
    } else if k > 0 {
      BlockMono(start + recordSize, recordSize, 0, k - 1);
    }
  }

  /**
   The number of blocks read is the largest count that is both declared and
   complete in the file: every block read ends inside the file, and when
   fewer than declared were read the next block is short. A zero record
   length reads every declared (empty) block.
   */
  lemma {:induction false} RecordBlocksCount(bytes: seq<Byte>, start: nat, recordSize: nat, remaining: nat)
    ensures var n := |RecordBlocks(bytes, start, recordSize, remaining)|;
            && (recordSize == 0 ==> n == remaining)
            && (n > 0 ==> Block(start, recordSize, n) <= |bytes| || recordSize == 0)
            && (n < remaining ==> recordSize > 0 && Block(start, recordSize, n) + recordSize > |bytes|)
    decreases remaining
  {
    if DecodesARecord(|bytes|, start, recordSize, remaining) {
      RecordBlocksCount(bytes, start + recordSize, recordSize, remaining - 1);
    }
  }

  /** Block k is the `recordSize` bytes at the k-th record position, wholly inside the file. */
  lemma {:induction false} RecordBlocksAt(bytes: seq<Byte>, start: nat, recordSize: nat, remaining: nat, k: nat)
    requires k < |RecordBlocks(bytes, start, recordSize, remaining)|
    ensures recordSize == 0 || Block(start, recordSize, k) + recordSize <= |bytes|
    ensures RecordBlocks(bytes, start, recordSize, remaining)[k]
            == RecordBytes(bytes, Block(start, recordSize, k), recordSize)
    decreases remaining
  {
    if k > 0 {
      RecordBlocksAt(bytes, start + recordSize, recordSize, remaining - 1, k - 1);
    }
  }

  // ------------------------------------------------------------ whole file

  /** The columns located in an attribute file. */
  function LayoutOf(bytes: seq<Byte>): Layout
    requires |bytes| >= HeaderBytes
  {
    FieldsOf(ScanDescriptors(bytes, HeaderBytes, ReadHeader(bytes).headerSize))
  }

  /**
   The record blocks of an attribute file (src/labels.cpp:124-130). After a
   descriptor scan that ended on a short read the stream has failed and every
   read gets nothing: then no block is read unless records are empty.
   */
  function BlocksOf(bytes: seq<Byte>): seq<seq<Byte>>
    requires |bytes| >= HeaderBytes
  {
    var h := ReadHeader(bytes);
    if StreamFails(bytes, h.headerSize) then RecordBlocks([], 0, h.recordSize, h.numRecords)
    else RecordBlocks(bytes, h.headerSize, h.recordSize, h.numRecords)
  }

  /**
   The inputs the model accepts: a complete 32-byte header, and columns that
   fit their record whenever a record is decoded at all. A file of 12 to 31
   bytes is also well defined in the source (a stream failed from the start),
   but is not accepted here.
   */
  predicate Loadable(bytes: seq<Byte>) {
    && |bytes| >= HeaderBytes
    && (|BlocksOf(bytes)| > 0 ==> LayoutFits(LayoutOf(bytes), ReadHeader(bytes).recordSize))
  }

  /** The rows of an attribute file. */
  function Parse(bytes: seq<Byte>): (records: seq<Record>)
    requires Loadable(bytes)
    ensures |records| <= ReadHeader(bytes).numRecords
    ensures forall k :: 0 <= k < |records| ==> Conforms(records[k], LayoutOf(bytes))
  {
    DecodeAll(BlocksOf(bytes), LayoutOf(bytes))
  }

  /**
   `SimpleDBFReader::load`: `None` is a file that could not be opened (the
   reader returns false with no records); otherwise the rows of the file.
   */
  function Load(file: Option<seq<Byte>>): (table: Option<seq<Record>>)
    requires file.Some? ==> Loadable(file.value)
    ensures table.None? <==> file.None?
    ensures table.Some? ==> table.value == Parse(file.value)
  {
    match file
    case None => None
    case Some(bytes) => Some(Parse(bytes))
  }

  /** One step of the walk adds one record length. */
  lemma {:induction false} BlockSucc(start: nat, recordSize: nat, k: nat)
    ensures Block(start, recordSize, k + 1) == Block(start, recordSize, k) + recordSize
    decreases k
  {
    if k > 0 {
      BlockSucc(start + recordSize, recordSize, k - 1);
    }
  }

  /**
   The block count in the terms of the file format: all declared blocks
   when the file is long enough for them, and otherwise the first block not
   read runs past the end of the file.
   */
  lemma RecordBlocksTotal(bytes: seq<Byte>, start: nat, recordSize: nat, remaining: nat)
    ensures var n := |RecordBlocks(bytes, start, recordSize, remaining)|;
            && (|bytes| >= start + remaining * recordSize ==> n == remaining)
            && (n < remaining ==> start + (n + 1) * recordSize > |bytes|)
  {
    var n := |RecordBlocks(bytes, start, recordSize, remaining)|;
    RecordBlocksCount(bytes, start, recordSize, remaining);
    if n < remaining {
      BlockSucc(start, recordSize, n);
      BlockIsProduct(start, recordSize, n + 1);
      BlockMono(start, recordSize, n + 1, remaining);
      BlockIsProduct(start, recordSize, remaining);
    }
  }

  /**
   Exactly the declared number of rows when the file holds all declared
   records; otherwise the first missing row is the one whose block runs past
   the end of the file. After a failed descriptor scan there are no rows,
   unless records are empty, when every declared row is decoded from nothing.
   */
  lemma RecordCount(bytes: seq<Byte>)
    requires Loadable(bytes)
    ensures var h := ReadHeader(bytes);
            !StreamFails(bytes, h.headerSize) && |bytes| >= h.headerSize + h.numRecords * h.recordSize
            ==> |Parse(bytes)| == h.numRecords
    ensures var h := ReadHeader(bytes);
            !StreamFails(bytes, h.headerSize) && |Parse(bytes)| < h.numRecords
            ==> h.headerSize + (|Parse(bytes)| + 1) * h.recordSize > |bytes|
    ensures var h := ReadHeader(bytes);
            StreamFails(bytes, h.headerSize) ==> |Parse(bytes)| == if h.recordSize == 0 then h.numRecords else 0
  {
    var h := ReadHeader(bytes);
    assert |Parse(bytes)| == |BlocksOf(bytes)|;
    if StreamFails(bytes, h.headerSize) {
      RecordBlocksCount([], 0, h.recordSize, h.numRecords);
    } else {
      RecordBlocksTotal(bytes, h.headerSize, h.recordSize, h.numRecords);
    }
  }

  /** Block k in the terms of the file format: the record length bytes at `start + k * recordSize`. */
  lemma RecordBlocksAtProduct(bytes: seq<Byte>, start: nat, recordSize: nat, remaining: nat, k: nat)
    requires k < |RecordBlocks(bytes, start, recordSize, remaining)|
    ensures recordSize == 0 || start + k * recordSize + recordSize <= |bytes|
    ensures RecordBlocks(bytes, start, recordSize, remaining)[k]
            == RecordBytes(bytes, start + k * recordSize, recordSize)
  {
    RecordBlocksAt(bytes, start, recordSize, remaining, k);
    BlockIsProduct(start, recordSize, k);
  }

  /** Where record k of a file begins: `headerSize + k * recordSize`. */
  function RecordStart(bytes: seq<Byte>, k: nat): nat
    requires |bytes| >= HeaderBytes
  {
    ReadHeader(bytes).headerSize + k * ReadHeader(bytes).recordSize
  }

  /** Row k of the file is the k-th record block after the header, decoded with the file's columns. */
  lemma ParsedRow(bytes: seq<Byte>, k: nat)
    requires Loadable(bytes)
    requires k < |Parse(bytes)|
    ensures var rs := ReadHeader(bytes).recordSize;
            && LayoutFits(LayoutOf(bytes), rs)
            && (rs == 0 || RecordStart(bytes, k) + rs <= |bytes|)
            && Parse(bytes)[k] == DecodeRecord(RecordBytes(bytes, RecordStart(bytes, k), rs), LayoutOf(bytes))
  {
    var h := ReadHeader(bytes);
    var blocks := BlocksOf(bytes);
    var layout := LayoutOf(bytes);
    assert Parse(bytes) == DecodeAll(blocks, layout);
    if StreamFails(bytes, h.headerSize) {
      RecordBlocksAtProduct([], 0, h.recordSize, h.numRecords, k);
      assert h.recordSize == 0;
    } else {
      RecordBlocksAtProduct(bytes, h.headerSize, h.recordSize, h.numRecords, k);
    }
    assert blocks[k] == RecordBytes(bytes, RecordStart(bytes, k), h.recordSize);
  }
}
