/**
 The `disassemble` request: read a window of memory around an address, decode it so that an
 instruction starts at the address, and reply with the requested instructions.
 */
module Disassemble {
  import opened Results

  type Byte = b: int | 0 <= b < 0x100

  const U64 := 0x1_0000_0000_0000_0000

  /**
   The debugged process and its decoder. `read` yields the bytes it could read or fails;
   `decode` yields the sizes of the instructions it recognises at the head of a buffer;
   `maxSize` is the architecture's longest instruction, 4 or 16 bytes.
   */
  datatype Target = Target(
    read: (nat, nat) -> Option<seq<Byte>>,
    decode: (nat, seq<Byte>) -> seq<nat>,
    maxSize: nat)

  function Sum(sizes: seq<nat>): nat {
    if sizes == [] then 0 else sizes[0] + Sum(sizes[1..])
  }

  predicate SizesFit(sizes: seq<nat>, maxSize: nat, length: nat) {
    (forall i :: 0 <= i < |sizes| ==> 1 <= sizes[i] <= maxSize) && Sum(sizes) <= length
  }

  /** What the debugger promises: no read is longer than asked, instructions are not empty and fit. */
  ghost predicate Sound(t: Target) {
    && t.maxSize >= 1
    && (forall a: nat, n: nat {:trigger t.read(a, n)} :: t.read(a, n).Some? ==> |t.read(a, n).value| <= n)
    && (forall a: nat, b: seq<Byte> {:trigger t.decode(a, b)} :: SizesFit(t.decode(a, b), t.maxSize, |b|))
  }

  // ---- Decoding a buffer ----

  /** A decoded instruction, or a byte that starts none. */
  datatype Entry = Instr(start: nat, size: nat) | Data(start: nat, value: Byte)

  function SizeOf(e: Entry): nat {
    match e
    case Instr(_, size) => size
    case Data(_, _) => 1
  }

  function Instrs(base: nat, sizes: seq<nat>): seq<Entry>
    decreases |sizes|
  {
    if sizes == [] then [] else [Instr(base, sizes[0])] + Instrs(base + sizes[0], sizes[1..])
  }

  ghost function DecodeAll(t: Target, base: nat, buffer: seq<Byte>): seq<Entry>
    requires Sound(t)
    decreases |buffer|
  {
    if buffer == [] then []
    else
      var sizes := t.decode(base, buffer);
      assert SizesFit(sizes, t.maxSize, |buffer|);
      if sizes == [] then [Data(base, buffer[0])] + DecodeAll(t, base + 1, buffer[1..])
      else Instrs(base, sizes) + DecodeAll(t, base + Sum(sizes), buffer[Sum(sizes)..])
  }

  method DisassembleBytes(t: Target, base: nat, buffer: seq<Byte>) returns (entries: seq<Entry>)
    requires Sound(t)
    ensures entries == DecodeAll(t, base, buffer)
  {
    hide DecodeAll, Sound, Instrs;
    var addr: nat, rest := base, buffer;
    entries := [];
    while |rest| > 0
      invariant entries + DecodeAll(t, addr, rest) == DecodeAll(t, base, buffer)
      decreases |rest|
    {
      var sizes := t.decode(addr, rest);
      DecodeBatch(t, addr, rest);
      var batch: seq<Entry>;
      ghost var done, all := entries, DecodeAll(t, addr, rest);
      if |sizes| > 0 {
        batch, addr, rest := TakeInstructions(addr, rest, sizes);
      } else {
        batch := [Data(addr, rest[0])];
        rest := rest[1..];
        addr := addr + 1;
      }
      entries := entries + batch;
      assert done + all == done + (batch + DecodeAll(t, addr, rest)) == entries + DecodeAll(t, addr, rest);
    }
    DecodeNothing(t, addr);
    assert entries + [] == entries;
  }

  lemma DecodeNothing(t: Target, base: nat)
    requires Sound(t)
    ensures DecodeAll(t, base, []) == []
  {
  }

  lemma DecodeBatch(t: Target, base: nat, buffer: seq<Byte>)
    requires Sound(t) && buffer != []
    ensures var sizes := t.decode(base, buffer);
      && (sizes != [] ==> 0 < Sum(sizes))
      && Sum(sizes) <= |buffer|
      && DecodeAll(t, base, buffer) ==
         (if sizes == [] then [Data(base, buffer[0])] + DecodeAll(t, base + 1, buffer[1..])
          else Instrs(base, sizes) + DecodeAll(t, base + Sum(sizes), buffer[Sum(sizes)..]))
  {
    assert SizesFit(t.decode(base, buffer), t.maxSize, |buffer|);
  }

  /** The inner loop: one entry for each decoded instruction. */
  method TakeInstructions(base: nat, buffer: seq<Byte>, sizes: seq<nat>)
    returns (entries: seq<Entry>, addr: nat, rest: seq<Byte>)
    requires Sum(sizes) <= |buffer|
    ensures entries == Instrs(base, sizes) && addr == base + Sum(sizes) && rest == buffer[Sum(sizes)..]
  {
    entries, addr, rest := [], base, buffer;
    assert sizes[0..] == sizes;
    for i := 0 to |sizes|
      invariant entries + Instrs(addr, sizes[i..]) == Instrs(base, sizes)
      invariant addr + Sum(sizes[i..]) == base + Sum(sizes)
      invariant Sum(sizes[i..]) <= |rest| && rest[Sum(sizes[i..])..] == buffer[Sum(sizes)..]
    {
      assert sizes[i..][0] == sizes[i] && sizes[i..][1..] == sizes[i + 1..];
      entries := entries + [Instr(addr, sizes[i])];
      addr := addr + sizes[i];
      rest := rest[sizes[i]..];
    }
    assert entries + [] == entries;
  }

  // ---- Reading memory ----

  /** The boundary that the binary search finds. */
  ghost predicate Boundary(lo: nat, hi: nat, pred: nat -> bool, r: nat) {
    && lo <= r <= hi
    && (r < hi ==> !pred(r))
    && (r > lo ==> pred(r - 1))
  }

  method PartitionPoint(lo: nat, hi: nat, pred: nat -> bool) returns (r: nat)
    requires lo <= hi
    ensures Boundary(lo, hi, pred, r)
    ensures (forall i, j :: lo <= i < j < hi && pred(j) ==> pred(i)) ==> forall i :: lo <= i < hi ==> (pred(i) <==> i < r)
  {
    var low, high := lo, hi;
    while low < high
      invariant lo <= low <= high <= hi
      invariant high < hi ==> !pred(high)
      invariant low > lo ==> pred(low - 1)
    {
      var mid := low + (high - low) / 2;
      if pred(mid) {
        low := mid + 1;
      } else {
        high := mid;
      }
    }
    r := low;
  }

  /** What reading a range yields: the range as asked, or its readable end part. */
  ghost predicate ReadResult(t: Target, start: nat, count: nat, lo: nat, bytes: seq<Byte>) {
    match t.read(start, count)
    case Some(all) => lo == start && bytes == all
    case None =>
      && Boundary(start, start + count, (a: nat) => t.read(a, 1).None?, lo)
      && bytes == match t.read(lo, start + count - lo) case Some(tail) => tail case None => []
  }

  method ReadMemory(t: Target, start: nat, count: nat) returns (lo: nat, bytes: seq<Byte>)
    requires Sound(t)
    ensures ReadResult(t, start, count, lo, bytes)
    ensures start <= lo && lo + |bytes| <= start + count
  {
    var all := t.read(start, count);
    if all.Some? {
      return start, all.value;
    }
    lo := PartitionPoint(start, start + count, (a: nat) => t.read(a, 1).None?);
    var tail := t.read(lo, start + count - lo);
    bytes := match tail case Some(b) => b case None => [];
  }

  // ---- The reply ----

  datatype Row =
    | Decoded(start: nat, bytes: seq<Byte>)
    | Undecoded(start: nat, value: Byte)
    | Invalid(addr: nat)

  datatype Outcome = Reply(rows: seq<Row>) | Error | Panics

  /** The index of the entry that starts at an address. */
  function Position(entries: seq<Entry>, addr: nat): (r: Option<nat>)
    ensures r.Some? ==> r.value < |entries| && entries[r.value].start == addr
    ensures r.None? ==> forall i :: 0 <= i < |entries| ==> entries[i].start != addr
  {
    if entries == [] then None
    else if entries[0].start == addr then Some(0)
    else
      match Position(entries[1..], addr)
      case None => None
      case Some(i) => Some(i + 1)
  }

  /** The first number of skipped bytes, below the limit, for which decoding meets the address. */
  ghost function Alignment(t: Target, addr: nat, lo: nat, bytes: seq<Byte>, i: nat): (r: Option<nat>)
    requires Sound(t) && i <= |bytes|
    ensures r.Some? ==> i <= r.value < t.maxSize && r.value < |bytes| && Position(Entries(t, lo, bytes, r.value), addr).Some?
    decreases t.maxSize - i
  {
    hide Entries, Position;
    if i >= t.maxSize || i >= |bytes| then None
    else if Position(Entries(t, lo, bytes, i), addr).Some? then Some(i)
    else Alignment(t, addr, lo, bytes, i + 1)
  }

  function RowOf(e: Entry, lo: nat, bytes: seq<Byte>): Row
    requires lo <= e.start && e.start + SizeOf(e) <= lo + |bytes|
  {
    match e
    case Instr(start, size) => Decoded(start, bytes[start - lo..start - lo + size])
    case Data(start, value) => Undecoded(start, value)
  }

  function Wrap(a: int): nat {
    a % U64
  }

  /** Padding in front of the decoded entries. */
  function PadBefore(lo: nat, i: int): seq<Row>
    requires i <= 0
    decreases -i
  {
    if i == 0 then [] else [Invalid(Wrap(lo + i))] + PadBefore(lo, i + 1)
  }

  predicate Within(entries: seq<Entry>, lo: nat, bytes: seq<Byte>) {
    forall i :: 0 <= i < |entries| ==> lo <= entries[i].start && entries[i].start + SizeOf(entries[i]) <= lo + |bytes|
  }

  function Rows(entries: seq<Entry>, lo: nat, bytes: seq<Byte>): seq<Row>
    requires Within(entries, lo, bytes)
  {
    seq(|entries|, i requires 0 <= i < |entries| => RowOf(entries[i], lo, bytes))
  }

  /** The reply for decoded entries: an index past them makes the slice panic. */
  function Build(entries: seq<Entry>, lo: nat, bytes: seq<Byte>, first: int, count: nat): Outcome
    requires Within(entries, lo, bytes)
  {
    var from := if first < 0 then 0 else first;
    if !(from <= first + count <= |entries|) then Panics
    else Reply((if first < 0 then PadBefore(lo, first) else []) + Rows(entries[from..first + count], lo, bytes))
  }

  /** The entries decoded after skipping some bytes. */
  ghost function Entries(t: Target, lo: nat, bytes: seq<Byte>, skipped: nat): (r: seq<Entry>)
    requires Sound(t) && skipped <= |bytes|
    ensures Within(r, lo + skipped, bytes[skipped..])
  {
    hide DecodeAll;
    DecodeTiles(t, lo + skipped, bytes[skipped..]);
    TilesWithin(DecodeAll(t, lo + skipped, bytes[skipped..]), lo + skipped, bytes[skipped..], t.maxSize);
    DecodeAll(t, lo + skipped, bytes[skipped..])
  }

  /** The reply for memory that was read. */
  ghost function Respond(t: Target, addr: nat, lo: nat, bytes: seq<Byte>, offset: int, count: nat): Outcome
    requires Sound(t)
  {
    hide Entries, Position, Alignment;
    match Alignment(t, addr, lo, bytes, 0)
    case None => Error
    case Some(i) =>
      var entries := Entries(t, lo, bytes, i);
      Build(entries, lo + i, bytes[i..], Position(entries, addr).value + offset, count)
  }

  function NumBefore(offset: int): nat {
    if offset < 0 then -offset else 0
  }

  function NumAfter(offset: int, count: int): nat {
    if count + offset > 0 then count + offset else 0
  }

  function WindowStart(t: Target, addr: nat, offset: int): nat {
    if addr < NumBefore(offset) * t.maxSize then 0 else addr - NumBefore(offset) * t.maxSize
  }

  function WindowEnd(t: Target, addr: nat, offset: int, count: int): nat {
    if addr + NumAfter(offset, count) * t.maxSize >= U64 then U64 - 1 else addr + NumAfter(offset, count) * t.maxSize
  }

  /** The handler. `reference` is the parsed memory reference, None if it does not parse. */
  method HandleDisassemble(t: Target, reference: Option<nat>, byteOffset: int, offset: int, count: int)
    returns (r: Outcome, ghost lo: nat, ghost bytes: seq<Byte>)
    requires Sound(t)
    requires reference.Some? ==> reference.value < U64
    ensures reference.None? || count < 0 ==> r == Error
    ensures reference.Some? && count >= 0 ==>
              var addr := Wrap(reference.value + byteOffset);
              var start, end := WindowStart(t, addr, offset), WindowEnd(t, addr, offset, count);
              && ReadResult(t, start, end - start, lo, bytes)
              && start <= lo && lo + |bytes| <= end
              && r == Respond(t, addr, lo, bytes, offset, count)
  {
    hide Entries, Position, Alignment, Sound, Build;
    lo, bytes := 0, [];
    if reference.None? || count < 0 {
      return Error, lo, bytes;
    }
    var addr := Wrap(reference.value + byteOffset);
    var numBefore := if offset < 0 then -offset else 0;
    var numAfter := if count + offset > 0 then count + offset else 0;
    var startAddr := if addr < numBefore * t.maxSize then 0 else addr - numBefore * t.maxSize;
    var endAddr := if addr + numAfter * t.maxSize >= U64 then U64 - 1 else addr + numAfter * t.maxSize;
    WindowOrdered(t, addr, offset, count);
    var buffer;
    startAddr, buffer := ReadMemory(t, startAddr, endAddr - startAddr);
    lo, bytes := startAddr, buffer;
    var skipped, entries, baseIndex := FindAlignment(t, addr, startAddr, buffer);
    if skipped.None? {
      return Error, lo, bytes;
    }
    startAddr := startAddr + skipped.value;
    buffer := buffer[skipped.value..];
    r := BuildRows(entries, startAddr, buffer, baseIndex + offset, count);
  }

  /** Tries to skip 0, 1, 2, ... bytes until decoding meets the address. */
  method FindAlignment(t: Target, addr: nat, lo: nat, bytes: seq<Byte>)
    returns (skipped: Option<nat>, entries: seq<Entry>, baseIndex: nat)
    requires Sound(t)
    ensures skipped == Alignment(t, addr, lo, bytes, 0)
    ensures skipped.Some? ==>
              && entries == Entries(t, lo, bytes, skipped.value)
              && Position(entries, addr) == Some(baseIndex)
  {
    hide DecodeAll, Position, Sound;
    skipped, entries, baseIndex := None, [], 0;
    var i := 0;
    while i < t.maxSize && i < |bytes|
      invariant 0 <= i <= |bytes|
      invariant Alignment(t, addr, lo, bytes, 0) == Alignment(t, addr, lo, bytes, i)
      decreases |bytes| - i
    {
      entries := DisassembleBytes(t, lo + i, bytes[i..]);
      var position := Position(entries, addr);
      if position.Some? {
        return Some(i), entries, position.value;
      }
      i := i + 1;
    }
  }

  /** Padding, then the decoded entries; the slice panics if it reaches past them. */
  method BuildRows(entries: seq<Entry>, lo: nat, bytes: seq<Byte>, first: int, count: nat) returns (r: Outcome)
    requires Within(entries, lo, bytes)
    ensures r == Build(entries, lo, bytes, first, count)
  {
    var startIdx, endIdx := first, first + count;
    var rows: seq<Row> := [];
    if startIdx < 0 {
      rows := PadRows(lo, startIdx);
      startIdx := 0;
    }
    if !(startIdx <= endIdx <= |entries|) {
      return Panics;
    }
    ghost var padding := rows;
    var k := startIdx;
    while k < endIdx
      invariant startIdx <= k <= endIdx
      invariant rows == padding + Rows(entries[startIdx..k], lo, bytes)
    {
      hide RowOf;
      RowsPush(entries, startIdx, k, lo, bytes);
      rows := rows + [RowOf(entries[k], lo, bytes)];
      k := k + 1;
    }
    return Reply(rows);
  }

  lemma RowsPush(entries: seq<Entry>, from: nat, k: nat, lo: nat, bytes: seq<Byte>)
    requires from <= k < |entries| && Within(entries, lo, bytes)
    ensures Rows(entries[from..k + 1], lo, bytes) == Rows(entries[from..k], lo, bytes) + [RowOf(entries[k], lo, bytes)]
  {
    hide RowOf;
  }

  method PadRows(lo: nat, first: int) returns (rows: seq<Row>)
    requires first <= 0
    ensures rows == PadBefore(lo, first)
  {
    hide Wrap;
    rows := [];
    var j := first;
    while j < 0
      invariant j <= 0
      invariant rows + PadBefore(lo, j) == PadBefore(lo, first)
    {
      assert rows + PadBefore(lo, j) == (rows + [Invalid(Wrap(lo + j))]) + PadBefore(lo, j + 1);
      rows := rows + [Invalid(Wrap(lo + j))];
      j := j + 1;
    }
    assert rows + [] == rows;
  }

  lemma WindowOrdered(t: Target, addr: nat, offset: int, count: int)
    requires addr < U64
    ensures WindowStart(t, addr, offset) <= addr <= WindowEnd(t, addr, offset, count)
  {
    assert NumBefore(offset) * t.maxSize >= 0 && NumAfter(offset, count) * t.maxSize >= 0;
  }

  // ---- Decoding tiles the buffer ----

  /** The entries cover the addresses from base to end without gaps, with sizes up to a maximum. */
  predicate Tiles(entries: seq<Entry>, base: nat, end: nat, maxSize: nat) {
    if entries == [] then base == end
    else
      && entries[0].start == base
      && 1 <= SizeOf(entries[0]) <= maxSize
      && Tiles(entries[1..], base + SizeOf(entries[0]), end, maxSize)
  }

  lemma {:induction false} TilesAppend(a: seq<Entry>, b: seq<Entry>, base: nat, mid: nat, end: nat, maxSize: nat)
    requires Tiles(a, base, mid, maxSize) && Tiles(b, mid, end, maxSize)
    ensures Tiles(a + b, base, end, maxSize)
  {
    if a == [] {
      assert a + b == b;
    } else {
      TilesAppend(a[1..], b, base + SizeOf(a[0]), mid, end, maxSize);
      assert (a + b)[1..] == a[1..] + b;
    }
  }

  lemma {:induction false} InstrsTile(base: nat, sizes: seq<nat>, maxSize: nat)
    requires forall i :: 0 <= i < |sizes| ==> 1 <= sizes[i] <= maxSize
    ensures Tiles(Instrs(base, sizes), base, base + Sum(sizes), maxSize)
    decreases |sizes|
  {
    if sizes == [] {
    } else {
      InstrsTile(base + sizes[0], sizes[1..], maxSize);
      assert Instrs(base, sizes)[1..] == Instrs(base + sizes[0], sizes[1..]);
    }
  }

  lemma {:induction false} DecodeTiles(t: Target, base: nat, buffer: seq<Byte>)
    requires Sound(t)
    ensures Tiles(DecodeAll(t, base, buffer), base, base + |buffer|, t.maxSize)
    decreases |buffer|
  {
    if buffer == [] {
    } else {
      var sizes := t.decode(base, buffer);
      assert SizesFit(sizes, t.maxSize, |buffer|);
      if sizes == [] {
        DecodeTiles(t, base + 1, buffer[1..]);
        assert ([Data(base, buffer[0])] + DecodeAll(t, base + 1, buffer[1..]))[1..] == DecodeAll(t, base + 1, buffer[1..]);
      } else {
        InstrsTile(base, sizes, t.maxSize);
        DecodeTiles(t, base + Sum(sizes), buffer[Sum(sizes)..]);
        TilesAppend(Instrs(base, sizes), DecodeAll(t, base + Sum(sizes), buffer[Sum(sizes)..]),
                    base, base + Sum(sizes), base + |buffer|, t.maxSize);
      }
    }
  }

  /** Where an entry of a tiling starts, bounded by the number of entries before and after it. */
  lemma {:induction false} EntryBounds(entries: seq<Entry>, base: nat, end: nat, maxSize: nat, k: nat)
    requires Tiles(entries, base, end, maxSize) && k <= |entries|
    ensures var at := if k < |entries| then entries[k].start else end;
      && base + k <= at <= base + k * maxSize
      && at + (|entries| - k) <= end <= at + (|entries| - k) * maxSize
      && Tiles(entries[k..], at, end, maxSize)
  {
    if k == 0 {
      assert entries[0..] == entries;
      TilingLength(entries, base, end, maxSize);
    } else {
      EntryBounds(entries[1..], base + SizeOf(entries[0]), end, maxSize, k - 1);
      assert entries[1..][k - 1..] == entries[k..];
      assert maxSize + (k - 1) * maxSize == k * maxSize;
    }
  }

  lemma {:induction false} TilingLength(entries: seq<Entry>, base: nat, end: nat, maxSize: nat)
    requires Tiles(entries, base, end, maxSize)
    ensures base + |entries| <= end <= base + |entries| * maxSize
  {
    if entries == [] {
    } else {
      TilingLength(entries[1..], base + SizeOf(entries[0]), end, maxSize);
      assert maxSize + |entries[1..]| * maxSize == |entries| * maxSize;
    }
  }

  lemma TilesWithin(entries: seq<Entry>, base: nat, buffer: seq<Byte>, maxSize: nat)
    requires Tiles(entries, base, base + |buffer|, maxSize)
    ensures Within(entries, base, buffer)
  {
    forall i | 0 <= i < |entries|
      ensures base <= entries[i].start && entries[i].start + SizeOf(entries[i]) <= base + |buffer|
    {
      EntryBounds(entries, base, base + |buffer|, maxSize, i);
      TilingLength(entries[i..][1..], entries[i].start + SizeOf(entries[i]), base + |buffer|, maxSize);
    }
  }
}
