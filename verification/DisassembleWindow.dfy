/**
 What a `disassemble` request is answered with: when it fails, when it panics, and that a fully
 readable window yields exactly the requested instructions.
 */
module DisassembleWindow {
  import opened Results
  import opened Disassemble

  function RowStart(r: Row): nat {
    match r
    case Decoded(start, _) => start
    case Undecoded(start, _) => start
    case Invalid(addr) => addr
  }

  function RowSize(r: Row): nat {
    match r
    case Decoded(_, bytes) => |bytes|
    case Undecoded(_, _) => 1
    case Invalid(_) => 0
  }

  /** Decoded rows that follow each other without gaps. */
  predicate Contiguous(rows: seq<Row>) {
    && (forall i :: 0 <= i < |rows| ==> !rows[i].Invalid?)
    && (forall i :: 0 <= i < |rows| - 1 ==> RowStart(rows[i]) + RowSize(rows[i]) == RowStart(rows[i + 1]))
  }

  lemma {:induction false} PadLength(lo: nat, i: int)
    requires i <= 0
    ensures |PadBefore(lo, i)| == -i
    ensures forall k :: 0 <= k < -i ==> PadBefore(lo, i)[k] == Invalid(Wrap(lo + i + k))
    decreases -i
  {
    if i < 0 {
      PadLength(lo, i + 1);
      assert PadBefore(lo, i)[1..] == PadBefore(lo, i + 1);
    }
  }

  /** Every reply has exactly the requested number of rows; padding stands only in front. */
  lemma ReplyLength(t: Target, addr: nat, lo: nat, bytes: seq<Byte>, offset: int, count: nat)
    requires Sound(t)
    ensures var r := Respond(t, addr, lo, bytes, offset, count);
      r.Reply? ==>
        && |r.rows| == count
        && forall i, j :: 0 <= i < j < count && r.rows[j].Invalid? ==> r.rows[i].Invalid?
  {
    hide Entries, Position, Alignment, Sound;
    var skipped := Alignment(t, addr, lo, bytes, 0);
    if skipped.Some? {
      var entries := Entries(t, lo, bytes, skipped.value);
      var first := Position(entries, addr).value + offset;
      if first < 0 {
        PadLength(lo + skipped.value, first);
      }
    }
  }

  // ---- What the rows show ----

  /** The bytes a row carries. */
  function RowBytes(r: Row): seq<Byte> {
    match r
    case Decoded(_, bytes) => bytes
    case Undecoded(_, value) => [value]
    case Invalid(_) => []
  }

  function BytesOf(rows: seq<Row>): seq<Byte> {
    if rows == [] then [] else RowBytes(rows[0]) + BytesOf(rows[1..])
  }

  /** A row that stands for an entry and carries the memory there; `bytes` is the memory from `lo` on. */
  predicate Shows(row: Row, e: Entry, lo: nat, bytes: seq<Byte>) {
    && lo <= e.start
    && match e
       case Instr(start, size) =>
         start + size <= lo + |bytes| && row == Decoded(start, bytes[start - lo..start - lo + size])
       case Data(start, _) =>
         start < lo + |bytes| && row == Undecoded(start, bytes[start - lo])
  }

  lemma {:induction false} InstrsOnly(base: nat, sizes: seq<nat>)
    ensures forall i :: 0 <= i < |Instrs(base, sizes)| ==> Instrs(base, sizes)[i].Instr?
    decreases |sizes|
  {
    if sizes == [] {
    } else {
      InstrsOnly(base + sizes[0], sizes[1..]);
    }
  }

  /** A data entry within the buffer carries the byte at its own address. */
  predicate DataTrue(e: Entry, base: nat, buffer: seq<Byte>) {
    e.Data? ==> base <= e.start < base + |buffer| && e.value == buffer[e.start - base]
  }

  lemma {:induction false} DataCarriesByte(t: Target, base: nat, buffer: seq<Byte>)
    requires Sound(t)
    ensures forall e :: e in DecodeAll(t, base, buffer) ==> DataTrue(e, base, buffer)
    decreases |buffer|
  {
    hide DecodeAll, Sound;
    if buffer == [] {
      DecodeNothing(t, base);
    } else {
      var sizes := t.decode(base, buffer);
      DecodeBatch(t, base, buffer);
      if sizes == [] {
        DataCarriesByte(t, base + 1, buffer[1..]);
      } else {
        InstrsOnly(base, sizes);
        DataCarriesByte(t, base + Sum(sizes), buffer[Sum(sizes)..]);
      }
    }
  }

  /**
   Rows for the entries from index `first` on, counting from before the first one: padding with the addresses
   before `at`, modulo 2^64, then the memory each entry covers.
   */
  predicate RowsShow(rows: seq<Row>, entries: seq<Entry>, first: int, at: nat, lo: nat, bytes: seq<Byte>) {
    forall k :: 0 <= k < |rows| ==>
      if first + k < 0 then rows[k] == Invalid((at + first + k) % 0x1_0000_0000_0000_0000)
      else first + k < |entries| && Shows(rows[k], entries[first + k], lo, bytes)
  }

  /** Every reply, row by row: padding for the entries missing in front, then for each entry in turn the memory it covers. */
  lemma ReplyShows(t: Target, addr: nat, lo: nat, bytes: seq<Byte>, offset: int, count: nat)
    requires Sound(t)
    ensures var r, skipped := Respond(t, addr, lo, bytes, offset, count), Alignment(t, addr, lo, bytes, 0);
      r.Reply? ==>
        && |r.rows| == count && skipped.Some?
        && var entries := Entries(t, lo, bytes, skipped.value);
           RowsShow(r.rows, entries, Position(entries, addr).value + offset, lo + skipped.value, lo, bytes)
  {
    hide Entries, Position, Alignment, Sound, RowsShow, Build;
    var skipped := Alignment(t, addr, lo, bytes, 0);
    if skipped.Some? {
      BuiltShows(t, lo, bytes, skipped.value, Position(Entries(t, lo, bytes, skipped.value), addr).value + offset, count);
    }
  }

  lemma BuiltShows(t: Target, lo: nat, bytes: seq<Byte>, skipped: nat, first: int, count: nat)
    requires Sound(t) && skipped <= |bytes|
    ensures var entries := Entries(t, lo, bytes, skipped);
      var r := Build(entries, lo + skipped, bytes[skipped..], first, count);
      r.Reply? ==> |r.rows| == count && RowsShow(r.rows, entries, first, lo + skipped, lo, bytes)
  {
    hide Entries, Sound, Shows, RowOf, Build;
    var entries := Entries(t, lo, bytes, skipped);
    var r := Build(entries, lo + skipped, bytes[skipped..], first, count);
    RowsBuilt(entries, lo + skipped, bytes[skipped..], first, count);
    if r.Reply? {
      forall k | 0 <= k < count && first + k >= 0
        ensures first + k < |entries| && Shows(r.rows[k], entries[first + k], lo, bytes)
      {
        var row := r.rows[k];
        assert first + k < |entries| && row == RowOf(entries[first + k], lo + skipped, bytes[skipped..]);
        EntryShown(t, lo, bytes, skipped, first + k);
      }
    }
  }

  lemma RowsBuilt(entries: seq<Entry>, lo: nat, bytes: seq<Byte>, first: int, count: nat)
    requires Within(entries, lo, bytes)
    ensures var r := Build(entries, lo, bytes, first, count);
      r.Reply? ==>
        && |r.rows| == count
        && forall k :: 0 <= k < count ==>
             if first + k < 0 then r.rows[k] == Invalid((lo + first + k) % 0x1_0000_0000_0000_0000)
             else first + k < |entries| && r.rows[k] == RowOf(entries[first + k], lo, bytes)
  {
    hide RowOf;
    if first < 0 {
      PadLength(lo, first);
    }
  }

  lemma EntryShown(t: Target, lo: nat, bytes: seq<Byte>, skipped: nat, k: nat)
    requires Sound(t) && skipped <= |bytes| && k < |Entries(t, lo, bytes, skipped)|
    ensures var e := Entries(t, lo, bytes, skipped)[k];
      Shows(RowOf(e, lo + skipped, bytes[skipped..]), e, lo, bytes)
  {
    hide Sound, DecodeAll;
    DataCarriesByte(t, lo + skipped, bytes[skipped..]);
    var e, at := Entries(t, lo, bytes, skipped)[k], lo + skipped;
    assert DataTrue(e, at, bytes[skipped..]);
    if e.Instr? {
      assert bytes[skipped..][e.start - at..e.start - at + e.size] == bytes[e.start - lo..e.start - lo + e.size];
    }
  }

  /** A row whose bytes are the memory at its own address. */
  predicate Carries(r: Row, lo: nat, bytes: seq<Byte>) {
    && lo <= RowStart(r) && RowStart(r) + RowSize(r) <= lo + |bytes|
    && RowBytes(r) == bytes[RowStart(r) - lo..RowStart(r) + RowSize(r) - lo]
  }

  lemma ShownCarries(r: Row, e: Entry, lo: nat, bytes: seq<Byte>)
    requires Shows(r, e, lo, bytes)
    ensures Carries(r, lo, bytes)
  {
  }

  /** Gapless rows that each carry the memory at their own address carry it together. */
  lemma {:induction false} BytesJoin(rows: seq<Row>, lo: nat, bytes: seq<Byte>)
    requires rows != [] && Contiguous(rows)
    requires forall k :: 0 <= k < |rows| ==> Carries(rows[k], lo, bytes)
    ensures var from, last := RowStart(rows[0]), rows[|rows| - 1];
      && lo <= from <= RowStart(last) + RowSize(last) <= lo + |bytes|
      && BytesOf(rows) == bytes[from - lo..RowStart(last) + RowSize(last) - lo]
  {
    hide RowBytes, RowSize, RowStart, Contiguous, BytesOf, Carries;
    CarriesSlice(rows[0], lo, bytes);
    if |rows| == 1 {
      OnlyRow(rows);
    } else {
      RestContiguous(rows);
      BytesJoin(rows[1..], lo, bytes);
      var last := rows[|rows| - 1];
      OneMoreRow(rows, bytes, RowStart(rows[0]) - lo, RowStart(rows[1]) - lo, RowStart(last) + RowSize(last) - lo);
    }
  }

  lemma OnlyRow(rows: seq<Row>)
    requires |rows| == 1
    ensures BytesOf(rows) == RowBytes(rows[0])
  {
    assert BytesOf(rows[1..]) == [];
  }

  lemma OneMoreRow(rows: seq<Row>, bytes: seq<Byte>, from: nat, to: nat, end: nat)
    requires rows != [] && from <= to <= end <= |bytes|
    requires RowBytes(rows[0]) == bytes[from..to] && BytesOf(rows[1..]) == bytes[to..end]
    ensures BytesOf(rows) == bytes[from..end]
  {
    hide RowBytes;
    SlicesJoin(bytes, from, to, end);
  }

  lemma SlicesJoin(bytes: seq<Byte>, from: nat, to: nat, end: nat)
    requires from <= to <= end <= |bytes|
    ensures bytes[from..to] + bytes[to..end] == bytes[from..end]
  {
  }

  lemma CarriesSlice(r: Row, lo: nat, bytes: seq<Byte>)
    requires Carries(r, lo, bytes)
    ensures lo <= RowStart(r) && RowStart(r) + RowSize(r) <= lo + |bytes|
    ensures RowBytes(r) == bytes[RowStart(r) - lo..RowStart(r) + RowSize(r) - lo]
  {
  }

  lemma RestContiguous(rows: seq<Row>)
    requires |rows| > 1 && Contiguous(rows)
    ensures Contiguous(rows[1..]) && rows[1..][|rows| - 2] == rows[|rows| - 1]
    ensures RowStart(rows[0]) + RowSize(rows[0]) == RowStart(rows[1])
  {
    hide RowStart, RowSize;
    var rest := rows[1..];
    forall i | 0 <= i < |rest| - 1 ensures RowStart(rest[i]) + RowSize(rest[i]) == RowStart(rest[i + 1]) {
      assert rest[i] == rows[i + 1] && rest[i + 1] == rows[i + 1 + 1];
    }
  }

  /** The entry found for an address lies within the bytes that were read. */
  lemma FoundWithin(t: Target, addr: nat, lo: nat, bytes: seq<Byte>)
    requires Sound(t)
    ensures var skipped := Alignment(t, addr, lo, bytes, 0);
      skipped.Some? ==> lo + skipped.value <= addr < lo + |bytes|
  {
    hide Entries, Position, Alignment, Sound;
    var skipped := Alignment(t, addr, lo, bytes, 0);
    if skipped.Some? {
      var i := skipped.value;
      var entries := Entries(t, lo, bytes, i);
      var p := Position(entries, addr).value;
      EntriesTile(t, lo, bytes, i);
      EntryBounds(entries, lo + i, lo + |bytes|, t.maxSize, p);
    }
  }

  lemma EntriesTile(t: Target, lo: nat, bytes: seq<Byte>, skipped: nat)
    requires Sound(t) && skipped <= |bytes|
    ensures Tiles(Entries(t, lo, bytes, skipped), lo + skipped, lo + |bytes|, t.maxSize)
  {
    DecodeTiles(t, lo + skipped, bytes[skipped..]);
  }

  /**
   A window that ends at or before the address, as it does whenever the instruction offset and
   count have no positive sum, is never answered.
   */
  lemma NoReplyWithoutBase(t: Target, addr: nat, lo: nat, bytes: seq<Byte>, offset: int, count: nat)
    requires Sound(t) && offset + count <= 0 && lo + |bytes| <= WindowEnd(t, addr, offset, count) && addr < U64
    ensures Respond(t, addr, lo, bytes, offset, count) == Error
  {
    hide Entries, Position, Alignment, Sound;
    FoundWithin(t, addr, lo, bytes);
  }

  /**
   The handler panics exactly when decoding meets the address but finds fewer than
   offset + count instructions from there to the end of the readable bytes.
   */
  lemma PanicsExactly(t: Target, addr: nat, lo: nat, bytes: seq<Byte>, offset: int, count: nat)
    requires Sound(t) && addr < U64 && lo + |bytes| <= WindowEnd(t, addr, offset, count)
    ensures Respond(t, addr, lo, bytes, offset, count).Panics? <==>
              var skipped := Alignment(t, addr, lo, bytes, 0);
              skipped.Some? &&
              var entries := Entries(t, lo, bytes, skipped.value);
              |entries| - Position(entries, addr).value < offset + count
  {
    hide Entries, Position, Alignment, Sound;
    if offset + count <= 0 {
      NoReplyWithoutBase(t, addr, lo, bytes, offset, count);
      FoundWithin(t, addr, lo, bytes);
    }
  }

  lemma MulMonotone(j: nat, k: nat, m: nat)
    requires j <= k
    ensures j * m <= k * m
  {
  }

  /** Entries of at most m bytes that cover more than n - 1 times m bytes are at least n. */
  lemma CountCover(k: nat, n: nat, m: nat, slack: nat)
    requires slack < m && n * m <= slack + k * m
    ensures k >= n
  {
    if k < n {
      MulMonotone(k + 1, n, m);
    }
  }

  lemma FullBounds(t: Target, addr: nat, lo: nat, hi: nat, offset: int, count: nat)
    requires offset + count > 0
    requires NumBefore(offset) * t.maxSize <= addr && addr + NumAfter(offset, count) * t.maxSize < U64
    requires lo == WindowStart(t, addr, offset) && hi == WindowEnd(t, addr, offset, count)
    ensures lo + NumBefore(offset) * t.maxSize == addr && hi == addr + NumAfter(offset, count) * t.maxSize
  {
  }

  /**
   A window that was read in full, without meeting the ends of the address space, holds enough
   instructions on both sides of the address.
   */
  lemma EnoughEntries(t: Target, addr: nat, lo: nat, bytes: seq<Byte>, offset: int, count: nat)
    requires Sound(t) && offset + count > 0
    requires NumBefore(offset) * t.maxSize <= addr && addr + NumAfter(offset, count) * t.maxSize < U64
    requires lo == WindowStart(t, addr, offset) && lo + |bytes| == WindowEnd(t, addr, offset, count)
    ensures var skipped := Alignment(t, addr, lo, bytes, 0);
      skipped.Some? ==>
        var entries := Entries(t, lo, bytes, skipped.value);
        var p := Position(entries, addr).value;
        p + offset >= 0 && p + offset + count <= |entries| && (offset > 0 ==> p == skipped.value == 0)
  {
    hide Entries, Position, Alignment, Sound, WindowStart, WindowEnd, Tiles;
    var skipped := Alignment(t, addr, lo, bytes, 0);
    FullBounds(t, addr, lo, lo + |bytes|, offset, count);
    if skipped.Some? {
      var i, m := skipped.value, t.maxSize;
      var entries := Entries(t, lo, bytes, i);
      var p := Position(entries, addr).value;
      EntriesTile(t, lo, bytes, i);
      EntryBounds(entries, lo + i, lo + |bytes|, m, p);
      CountCover(|entries| - p, NumAfter(offset, count), m, 0);
      CountCover(p, NumBefore(offset), m, i);
    }
  }

  /** Rows made from consecutive entries follow each other without gaps. */
  lemma {:induction false} RowsContiguous(entries: seq<Entry>, base: nat, bytes: seq<Byte>, maxSize: nat, from: nat, to: nat)
    requires Tiles(entries, base, base + |bytes|, maxSize) && from <= to <= |entries|
    requires Within(entries, base, bytes)
    ensures Contiguous(Rows(entries[from..to], base, bytes))
  {
    var rows := Rows(entries[from..to], base, bytes);
    forall i | 0 <= i < |rows| - 1 ensures RowStart(rows[i]) + RowSize(rows[i]) == RowStart(rows[i + 1]) {
      EntryBounds(entries, base, base + |bytes|, maxSize, from + i);
      assert entries[from + i..][1..][0] == entries[from + i + 1];
    }
  }

  /** What the handler builds from entries that cover the requested range. */
  lemma BuildCovered(entries: seq<Entry>, base: nat, bytes: seq<Byte>, maxSize: nat, p: nat, offset: int, count: nat)
    requires Tiles(entries, base, base + |bytes|, maxSize) && Within(entries, base, bytes)
    requires p < |entries| && 0 <= p + offset && p + offset + count <= |entries|
    ensures var r := Build(entries, base, bytes, p + offset, count);
      && r == Reply(Rows(entries[p + offset..p + offset + count], base, bytes))
      && |r.rows| == count && Contiguous(r.rows)
      && (offset <= 0 < offset + count ==> RowStart(r.rows[-offset]) == entries[p].start)
  {
    hide Tiles, Contiguous, RowOf, PadBefore, RowStart, RowSize, SizeOf;
    RowsContiguous(entries, base, bytes, maxSize, p + offset, p + offset + count);
    var part := entries[p + offset..p + offset + count];
    assert [] + Rows(part, base, bytes) == Rows(part, base, bytes);
    if offset <= 0 < offset + count {
      assert part[-offset] == entries[p];
      RowKeepsStart(entries[p], base, bytes);
    }
  }

  lemma RowKeepsStart(e: Entry, lo: nat, bytes: seq<Byte>)
    requires lo <= e.start && e.start + SizeOf(e) <= lo + |bytes|
    ensures RowStart(RowOf(e, lo, bytes)) == e.start && RowSize(RowOf(e, lo, bytes)) == SizeOf(e)
  {
  }

  /**
   A fully readable window is answered with exactly the requested instructions, decoded without
   gaps, unless decoding meets the address at no alignment; with a non-positive offset the row at
   index -offset is the one at the address. Joined, the rows' bytes are the memory from the first
   row's start to the last row's end.
   */
  lemma FullWindowReply(t: Target, addr: nat, lo: nat, bytes: seq<Byte>, offset: int, count: nat)
    requires Sound(t) && offset + count > 0
    requires NumBefore(offset) * t.maxSize <= addr && addr + NumAfter(offset, count) * t.maxSize < U64
    requires lo == WindowStart(t, addr, offset) && lo + |bytes| == WindowEnd(t, addr, offset, count)
    ensures var r := Respond(t, addr, lo, bytes, offset, count);
      && (r.Reply? <==> Alignment(t, addr, lo, bytes, 0).Some?)
      && !r.Panics?
      && (r.Reply? ==> |r.rows| == count && Contiguous(r.rows))
      && (r.Reply? && offset <= 0 ==> RowStart(r.rows[-offset]) == addr)
      && (r.Reply? && count > 0 ==>
            var from, last := RowStart(r.rows[0]), r.rows[count - 1];
            && lo <= from <= RowStart(last) + RowSize(last) <= lo + |bytes|
            && BytesOf(r.rows) == bytes[from - lo..RowStart(last) + RowSize(last) - lo])
  {
    hide Entries, Position, Alignment, Sound, WindowStart, WindowEnd, Build, Tiles, BytesOf, Respond;
    EnoughEntries(t, addr, lo, bytes, offset, count);
    FullWindowBuilt(t, addr, lo, bytes, offset, count);
    var r := Respond(t, addr, lo, bytes, offset, count);
    if r.Reply? && count > 0 {
      ReplyCarries(t, addr, lo, bytes, offset, count);
      hide Carries, RowSize, RowStart;
      BytesJoin(r.rows, lo, bytes);
    }
  }

  /** A row of a reply is padding or carries the memory at its own address. */
  lemma ReplyCarries(t: Target, addr: nat, lo: nat, bytes: seq<Byte>, offset: int, count: nat)
    requires Sound(t)
    ensures var r := Respond(t, addr, lo, bytes, offset, count);
      r.Reply? ==> forall k :: 0 <= k < |r.rows| ==> r.rows[k].Invalid? || Carries(r.rows[k], lo, bytes)
  {
    hide Entries, Position, Alignment, Sound, Shows, Carries, Respond;
    ReplyShows(t, addr, lo, bytes, offset, count);
    var r, skipped := Respond(t, addr, lo, bytes, offset, count), Alignment(t, addr, lo, bytes, 0);
    if r.Reply? {
      var entries := Entries(t, lo, bytes, skipped.value);
      var first := Position(entries, addr).value + offset;
      forall k | 0 <= k < |r.rows| && !r.rows[k].Invalid? ensures Carries(r.rows[k], lo, bytes) {
        ShownCarries(r.rows[k], entries[first + k], lo, bytes);
      }
    }
  }

  lemma FullWindowBuilt(t: Target, addr: nat, lo: nat, bytes: seq<Byte>, offset: int, count: nat)
    requires Sound(t) && offset + count > 0
    requires NumBefore(offset) * t.maxSize <= addr && addr + NumAfter(offset, count) * t.maxSize < U64
    requires lo == WindowStart(t, addr, offset) && lo + |bytes| == WindowEnd(t, addr, offset, count)
    ensures var r := Respond(t, addr, lo, bytes, offset, count);
      && (r.Reply? <==> Alignment(t, addr, lo, bytes, 0).Some?)
      && !r.Panics?
      && (r.Reply? ==> |r.rows| == count && Contiguous(r.rows))
      && (r.Reply? && offset <= 0 ==> RowStart(r.rows[-offset]) == addr)
  {
    hide Entries, Position, Alignment, Sound, WindowStart, WindowEnd, Build, Contiguous, Tiles;
    EnoughEntries(t, addr, lo, bytes, offset, count);
    var skipped := Alignment(t, addr, lo, bytes, 0);
    if skipped.Some? {
      var i := skipped.value;
      var entries := Entries(t, lo, bytes, i);
      EntriesTile(t, lo, bytes, i);
      BuildCovered(entries, lo + i, bytes[i..], t.maxSize, Position(entries, addr).value, offset, count);
    }
  }

  /**
   With a positive offset and a fully readable window, the row at index k is made of the entry at
   index offset + k, counted from the one at the address.
   */
  lemma FullWindowAfter(t: Target, addr: nat, bytes: seq<Byte>, offset: nat, count: nat)
    requires Sound(t) && offset > 0 && addr + NumAfter(offset, count) * t.maxSize < U64
    requires WindowStart(t, addr, offset) == addr && addr + |bytes| == WindowEnd(t, addr, offset, count)
    requires Alignment(t, addr, addr, bytes, 0).Some?
    ensures var entries, r := Entries(t, addr, bytes, 0), Respond(t, addr, addr, bytes, offset, count);
      && r.Reply? && |r.rows| == count && offset + count <= |entries| && entries[0].start == addr
      && (forall k :: 0 <= k < count ==> Shows(r.rows[k], entries[offset + k], addr, bytes))
  {
    hide Entries, Position, Sound, Alignment, WindowStart, WindowEnd, Build, Contiguous, Shows;
    EnoughEntries(t, addr, addr, bytes, offset, count);
    FullWindowReply(t, addr, addr, bytes, offset, count);
    ReplyShows(t, addr, addr, bytes, offset, count);
  }

  /** Reading yields the bytes of the debugged process's memory, and never a byte that is not there. */
  ghost predicate Backed(t: Target, memory: nat -> Option<Byte>) {
    forall a: nat, n: nat {:trigger t.read(a, n)} :: t.read(a, n).Some? ==>
      forall i :: 0 <= i < |t.read(a, n).value| ==> memory(a + i) == Some(t.read(a, n).value[i])
  }

  predicate InMemory(r: Row, memory: nat -> Option<Byte>) {
    forall i :: 0 <= i < |RowBytes(r)| ==> memory(RowStart(r) + i) == Some(RowBytes(r)[i])
  }

  /** Every row of a reply that is not padding carries the process's memory at its own address. */
  lemma RowsAreMemory(t: Target, memory: nat -> Option<Byte>, addr: nat, start: nat, size: nat,
                      lo: nat, bytes: seq<Byte>, offset: int, count: nat)
    requires Sound(t) && Backed(t, memory) && ReadResult(t, start, size, lo, bytes)
    ensures var r := Respond(t, addr, lo, bytes, offset, count);
      r.Reply? ==> forall k :: 0 <= k < |r.rows| ==> InMemory(r.rows[k], memory)
  {
    MemoryRead(t, memory, start, size, lo, bytes);
    hide Sound, Backed, ReadResult, Respond, Carries, InMemory;
    ReplyCarries(t, addr, lo, bytes, offset, count);
    var r := Respond(t, addr, lo, bytes, offset, count);
    if r.Reply? {
      forall k | 0 <= k < |r.rows| ensures InMemory(r.rows[k], memory) {
        RowInMemory(r.rows[k], memory, lo, bytes);
      }
    }
  }

  lemma RowInMemory(r: Row, memory: nat -> Option<Byte>, lo: nat, bytes: seq<Byte>)
    requires r.Invalid? || Carries(r, lo, bytes)
    requires forall i :: 0 <= i < |bytes| ==> memory(lo + i) == Some(bytes[i])
    ensures InMemory(r, memory)
  {
    forall i | 0 <= i < |RowBytes(r)| ensures memory(RowStart(r) + i) == Some(RowBytes(r)[i]) {
      CarriedByte(r, lo, bytes, i);
      assert memory(lo + (RowStart(r) + i - lo)) == Some(bytes[RowStart(r) + i - lo]);
    }
  }

  lemma CarriedByte(r: Row, lo: nat, bytes: seq<Byte>, i: nat)
    requires (r.Invalid? || Carries(r, lo, bytes)) && i < |RowBytes(r)|
    ensures lo <= RowStart(r) + i < lo + |bytes| && RowBytes(r)[i] == bytes[RowStart(r) + i - lo]
  {
  }

  lemma MemoryRead(t: Target, memory: nat -> Option<Byte>, start: nat, size: nat, lo: nat, bytes: seq<Byte>)
    requires Backed(t, memory) && ReadResult(t, start, size, lo, bytes)
    ensures start <= lo && forall i :: 0 <= i < |bytes| ==> memory(lo + i) == Some(bytes[i])
  {
  }

  /** One readable byte and a request for two instructions: the padding after the end is never reached. */
  lemma ShortMemoryPanics()
    ensures var t := Target((a: nat, n: nat) => if n == 0 then Some([]) else Some([0]),
                            (a: nat, b: seq<Byte>) => if b == [] then [] else [1], 4);
      Sound(t) && ReadResult(t, 100, 8, 100, [0]) && Respond(t, 100, 100, [0], 0, 2) == Panics
  {
    var t := Target((a: nat, n: nat) => if n == 0 then Some([]) else Some([0]),
                    (a: nat, b: seq<Byte>) => if b == [] then [] else [1], 4);
    assert Sum([1]) == 1;
    assert Sound(t);
    assert [0][0..] == [0] && [0][1..] == [];
    assert Instrs(100, [1]) == [Instr(100, 1)];
    assert Entries(t, 100, [0], 0) == [Instr(100, 1)];
    assert Alignment(t, 100, 100, [0], 0) == Some(0);
  }
}
