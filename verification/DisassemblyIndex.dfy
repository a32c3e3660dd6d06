/**
 The cache of disassembled ranges: an index sorted by start address, searched by bisection,
 beside a table by handle; and the line tables of a disassembled range.
 */
module DisassemblyIndex {
  import opened Results

  datatype Range = Range(handle: nat, start: nat, end: nat, addrs: seq<nat>)

  predicate Contains(r: Range, addr: nat) {
    r.start <= addr < r.end
  }

  datatype State = State(byHandle: map<nat, Range>, byAddress: seq<Range>)

  const INIT := State(map[], [])
  const FIRST_HANDLE := 1000

  // ---- Bisection ----

  predicate Ascending(xs: seq<nat>) {
    forall i, j :: 0 <= i < j < |xs| ==> xs[i] <= xs[j]
  }

  /** The number of leading elements below a bound. */
  function PartitionPoint(xs: seq<nat>, bound: nat): (r: nat)
    ensures r <= |xs|
    ensures forall i :: 0 <= i < r ==> xs[i] < bound
    ensures r < |xs| ==> xs[r] >= bound
  {
    if xs == [] || xs[0] >= bound then 0 else 1 + PartitionPoint(xs[1..], bound)
  }

  /** On a sorted list, bisection finds the number of leading elements. */
  method Bisect(xs: seq<nat>, bound: nat) returns (r: nat)
    requires Ascending(xs)
    ensures r == PartitionPoint(xs, bound)
  {
    var low, high := 0, |xs|;
    while low < high
      invariant 0 <= low <= high <= |xs|
      invariant forall i :: 0 <= i < low ==> xs[i] < bound
      invariant forall i :: high <= i < |xs| ==> xs[i] >= bound
    {
      var mid := low + (high - low) / 2;
      if xs[mid] < bound {
        low := mid + 1;
      } else {
        high := mid;
      }
    }
    PointIs(xs, bound, low);
    r := low;
  }

  lemma {:induction false} PointIs(xs: seq<nat>, bound: nat, p: nat)
    requires p <= |xs| && (forall i :: 0 <= i < p ==> xs[i] < bound) && (p < |xs| ==> xs[p] >= bound)
    ensures PartitionPoint(xs, bound) == p
  {
    if p > 0 {
      PointIs(xs[1..], bound, p - 1);
    }
  }

  // ---- The index ----

  function Starts(rs: seq<Range>): seq<nat> {
    seq(|rs|, i requires 0 <= i < |rs| => rs[i].start)
  }

  predicate Sorted(rs: seq<Range>) {
    Ascending(Starts(rs))
  }

  /** The last range that starts at or below the address is the only candidate. */
  function Find(s: State, addr: nat): Option<Range> {
    var idx := PartitionPoint(Starts(s.byAddress), addr + 1);
    if idx > 0 && Contains(s.byAddress[idx - 1], addr) then Some(s.byAddress[idx - 1]) else None
  }

  function NewRange(s: State, start: nat, end: nat, addrs: seq<nat>): Range {
    Range(|s.byHandle| + FIRST_HANDLE, start, end, addrs)
  }

  function Inserted(rs: seq<Range>, x: Range): seq<Range> {
    var idx := PartitionPoint(Starts(rs), x.start);
    rs[..idx] + [x] + rs[idx..]
  }

  function Add(s: State, start: nat, end: nat, addrs: seq<nat>): State {
    var r := NewRange(s, start, end, addrs);
    State(s.byHandle[r.handle := r], Inserted(s.byAddress, r))
  }

  /** What the debugger knows about an address: its symbol's extent and instructions, or some instructions from it on. */
  datatype Code = Symbol(start: nat, end: nat, addrs: seq<nat>) | Bare(addrs: seq<nat>)

  function CodeEnd(addr: nat, code: Code): nat {
    match code
    case Symbol(_, end, _) => end
    case Bare(addrs) => if addrs == [] then addr else addrs[|addrs| - 1]
  }

  function CodeStart(addr: nat, code: Code): nat {
    if code.Symbol? then code.start else addr
  }

  function FromAddress(s: State, addr: nat, code: Code): (State, Option<Range>) {
    match Find(s, addr)
    case Some(r) => (s, Some(r))
    case None =>
      if code.addrs == [] then (s, None)
      else (Add(s, CodeStart(addr, code), CodeEnd(addr, code), code.addrs),
            Some(NewRange(s, CodeStart(addr, code), CodeEnd(addr, code), code.addrs)))
  }

  class DisassembledRanges {
    var byHandle: map<nat, Range>
    var byAddress: seq<Range>

    ghost function View(): State
      reads this
    {
      State(byHandle, byAddress)
    }

    constructor ()
      ensures View() == INIT
    {
      byHandle, byAddress := map[], [];
    }

    method FindByAddress(addr: nat) returns (r: Option<Range>)
      requires Sorted(byAddress)
      ensures r == Find(View(), addr)
    {
      var idx := Bisect(Starts(byAddress), addr + 1);
      if idx > 0 {
        var dasm := byAddress[idx - 1];
        if Contains(dasm, addr) {
          return Some(dasm);
        }
      }
      return None;
    }

    method AddRange(start: nat, end: nat, addrs: seq<nat>) returns (r: Range)
      requires Sorted(byAddress)
      modifies this
      ensures View() == Add(old(View()), start, end, addrs)
      ensures r == NewRange(old(View()), start, end, addrs)
    {
      r := Range(|byHandle| + FIRST_HANDLE, start, end, addrs);
      byHandle := byHandle[r.handle := r];
      var idx := Bisect(Starts(byAddress), start);
      byAddress := byAddress[..idx] + [r] + byAddress[idx..];
    }

    method GetFromAddress(addr: nat, code: Code) returns (r: Option<Range>)
      requires Sorted(byAddress)
      modifies this
      ensures (View(), r) == FromAddress(old(View()), addr, code)
    {
      r := FindByAddress(addr);
      if r.Some? {
        return;
      }
      if |code.addrs| > 0 {
        var start, end := addr, code.addrs[|code.addrs| - 1];
        if code.Symbol? {
          start, end := code.start, code.end;
        }
        var added := AddRange(start, end, code.addrs);
        r := Some(added);
      }
    }
  }

  // ---- What every sequence of inserts keeps ----

  /** The index is sorted, and handles 1000, 1001, ... number exactly its ranges. */
  ghost predicate Inv(s: State) {
    Sorted(s.byAddress) && Numbered(s.byHandle, s.byAddress)
  }

  ghost predicate Numbered(m: map<nat, Range>, rs: seq<Range>) {
    && |m| == |rs|
    && (forall h :: h in m <==> 1000 <= h < 1000 + |rs|)
    && (forall h :: h in m ==> m[h].handle == h && m[h] in rs)
    && (forall r <- rs :: r.handle in m && m[r.handle] == r)
  }

  lemma NumberedAfter(m: map<nat, Range>, rs: seq<Range>, rs': seq<Range>, r: Range)
    requires Numbered(m, rs) && r.handle == |m| + FIRST_HANDLE
    requires |rs'| == |rs| + 1 && forall x :: x in rs' <==> x in rs || x == r
    ensures Numbered(m[r.handle := r], rs')
  {
    AddHandle(m, r);
  }

  lemma InsertMembers(rs: seq<Range>, x: Range)
    ensures forall r :: r in Inserted(rs, x) <==> r in rs || r == x
  {
    var idx := PartitionPoint(Starts(rs), x.start);
    assert rs == rs[..idx] + rs[idx..];
  }

  lemma InsertSorted(rs: seq<Range>, x: Range)
    requires Sorted(rs)
    ensures Sorted(Inserted(rs, x))
  {
    var starts := Starts(rs);
    var idx := PartitionPoint(starts, x.start);
    var starts' := starts[..idx] + [x.start] + starts[idx..];
    StartsInserted(rs, x);
    forall i, j | 0 <= i < j < |starts'| ensures starts'[i] <= starts'[j] {
      if i == idx {
        assert starts'[j] == starts[j - 1] && starts[idx] <= starts[j - 1];
      }
    }
  }

  lemma AddKeeps(s: State, start: nat, end: nat, addrs: seq<nat>)
    requires Inv(s)
    ensures Inv(Add(s, start, end, addrs))
    ensures var s' := Add(s, start, end, addrs);
      && (forall r :: r in s'.byAddress <==> r in s.byAddress || r == NewRange(s, start, end, addrs))
      && (forall h :: h in s.byHandle ==> h in s'.byHandle && s'.byHandle[h] == s.byHandle[h])
  {
    hide PartitionPoint, Sorted, Starts, Numbered;
    var r := NewRange(s, start, end, addrs);
    InsertSorted(s.byAddress, r);
    SameLength(s.byAddress);
    InsertMembers(s.byAddress, r);
    NumberedAfter(s.byHandle, s.byAddress, Inserted(s.byAddress, r), r);
    NewHandle(s);
  }

  lemma NewHandle(s: State)
    requires Inv(s)
    ensures |s.byHandle| + FIRST_HANDLE !in s.byHandle
  {
  }

  lemma SameLength(rs: seq<Range>)
    ensures |Starts(rs)| == |rs|
  {
  }

  lemma AddHandle(m: map<nat, Range>, r: Range)
    requires r.handle !in m
    ensures |m[r.handle := r]| == |m| + 1
  {
    assert m[r.handle := r].Keys == m.Keys + {r.handle};
  }

  /** A hit really contains the address. */
  lemma FoundContains(s: State, addr: nat)
    requires Inv(s)
    ensures var f := Find(s, addr); f.Some? ==> f.value in s.byAddress && f.value.start <= addr < f.value.end
  {
  }

  ghost predicate DisjointRanges(rs: seq<Range>) {
    && (forall r <- rs :: r.start < r.end)
    && (forall i, j :: 0 <= i < j < |rs| ==> rs[i].end <= rs[j].start || rs[j].end <= rs[i].start)
  }

  /** For nonempty, pairwise disjoint ranges, bisection finds exactly the range that contains the address. */
  lemma FindIsLinearSearch(s: State, addr: nat, r: Range)
    requires Inv(s) && DisjointRanges(s.byAddress)
    ensures Find(s, addr) == Some(r) <==> r in s.byAddress && r.start <= addr < r.end
  {
    FoundContains(s, addr);
    if r in s.byAddress && Contains(r, addr) {
      var i :| 0 <= i < |s.byAddress| && s.byAddress[i] == r;
      LastCandidate(s.byAddress, addr, i);
    }
  }

  /** Among disjoint ranges, the one that contains the address is the last that starts at or below it. */
  lemma LastCandidate(rs: seq<Range>, addr: nat, i: nat)
    requires Sorted(rs) && DisjointRanges(rs) && i < |rs| && Contains(rs[i], addr)
    ensures PartitionPoint(Starts(rs), addr + 1) == i + 1
  {
    var starts := Starts(rs);
    assert starts[i] == rs[i].start;
    forall k | 0 <= k < |rs| ensures k <= i ==> starts[k] < addr + 1 ensures k > i ==> starts[k] >= addr + 1 {
      assert starts[k] == rs[k].start;
    }
    PointIs(starts, addr + 1, i + 1);
  }

  // ---- Exactly when a range is hidden ----

  /** The first address at or after a range's start that the range does not contain. */
  function Reach(r: Range): nat {
    if r.start < r.end then r.end else r.start
  }

  /** A range does not outlast a later one, unless a further one begins by the time that one is over. */
  ghost predicate HidesNothing(rs: seq<Range>, k: nat, i: nat)
    requires k < i < |rs|
  {
    rs[k].end <= Reach(rs[i]) || (i + 1 < |rs| && rs[i + 1].start <= Reach(rs[i]))
  }

  ghost predicate NothingHidden(rs: seq<Range>) {
    forall k: nat, i: nat :: k < i < |rs| ==> HidesNothing(rs, k, i)
  }

  ghost predicate AllFound(s: State) {
    forall r, addr :: r in s.byAddress && Contains(r, addr) ==> Find(s, addr).Some?
  }

  lemma CandidateIs(rs: seq<Range>, addr: nat, i: nat)
    requires Sorted(rs) && i < |rs| && rs[i].start <= addr && (i + 1 < |rs| ==> addr < rs[i + 1].start)
    ensures PartitionPoint(Starts(rs), addr + 1) == i + 1
  {
    var starts := Starts(rs);
    forall k | 0 <= k <= i ensures starts[k] < addr + 1 {
      assert starts[k] <= starts[i];
    }
    PointIs(starts, addr + 1, i + 1);
  }

  lemma {:induction false} BelowPoint(xs: seq<nat>, bound: nat, i: nat)
    requires Ascending(xs) && i < |xs| && xs[i] < bound
    ensures i < PartitionPoint(xs, bound)
  {
    if i > 0 {
      assert xs[0] <= xs[i];
      BelowPoint(xs[1..], bound, i - 1);
    }
  }

  /** The candidate for an address at or after some range's start is that range or a later one. */
  lemma Candidate(rs: seq<Range>, addr: nat, k: nat) returns (i: nat)
    requires Sorted(rs) && k < |rs| && rs[k].start <= addr
    ensures k <= i < |rs| && PartitionPoint(Starts(rs), addr + 1) == i + 1
    ensures rs[i].start <= addr && (i + 1 < |rs| ==> addr < rs[i + 1].start)
  {
    var starts := Starts(rs);
    var p := PartitionPoint(starts, addr + 1);
    assert starts[k] == rs[k].start;
    BelowPoint(starts, addr + 1, k);
    i := p - 1;
    assert starts[i] == rs[i].start && (p < |rs| ==> starts[p] == rs[p].start);
  }

  /**
   Every address that some range of the index contains is found if and only if no range outlasts a later
   one with nothing beginning in time to take over.
   */
  lemma FoundExactly(s: State)
    requires Inv(s)
    ensures AllFound(s) <==> NothingHidden(s.byAddress)
  {
    hide Sorted, Numbered, PartitionPoint, Starts;
    var rs := s.byAddress;
    if NothingHidden(rs) {
      forall r, addr | r in rs && Contains(r, addr) ensures Find(s, addr).Some? {
        var k :| 0 <= k < |rs| && rs[k] == r;
        var i := Candidate(rs, addr, k);
        assert k < i ==> HidesNothing(rs, k, i);
      }
    }
    if !NothingHidden(rs) {
      var k: nat, i: nat :| k < i < |rs| && !HidesNothing(rs, k, i);
      var addr := Reach(rs[i]);
      StartsInOrder(rs, k, i);
      CandidateIs(rs, addr, i);
      assert rs[k] in rs && Contains(rs[k], addr) && Find(s, addr).None?;
    }
  }

  lemma StartsInOrder(rs: seq<Range>, k: nat, i: nat)
    requires Sorted(rs) && k < i < |rs|
    ensures rs[k].start <= rs[i].start
  {
    assert Starts(rs)[k] <= Starts(rs)[i];
  }

  /** A range that overlaps others can hide an older one: the address stays uncovered by the search. */
  lemma OverlapHides()
    ensures var s := Add(Add(INIT, 0, 100, [0]), 10, 20, [10]);
      Find(s, 50) == None && exists r :: r in s.byAddress && Contains(r, 50)
  {
    var outer, inner := Range(1000, 0, 100, [0]), Range(1001, 10, 20, [10]);
    var s1 := Add(INIT, 0, 100, [0]);
    assert s1 == State(map[1000 := outer], [outer]);
    PointIs(Starts([outer]), 10, 1);
    var s := Add(s1, 10, 20, [10]);
    assert s.byAddress == [outer, inner];
    PointIs(Starts([outer, inner]), 51, 2);
    assert outer in s.byAddress && Contains(outer, 50);
  }

  // ---- Caching ----

  datatype Insert = Insert(start: nat, end: nat, addrs: seq<nat>)

  function AddAll(s: State, inserts: seq<Insert>): State
    decreases |inserts|
  {
    if inserts == [] then s else AddAll(Add(s, inserts[0].start, inserts[0].end, inserts[0].addrs), inserts[1..])
  }

  /** Every sequence of inserts keeps the index sorted, and every range its handle. */
  lemma {:induction false} AddAllKeeps(s: State, inserts: seq<Insert>)
    requires Inv(s)
    ensures var s' := AddAll(s, inserts);
      && Inv(s')
      && (forall r <- s.byAddress :: r in s'.byAddress && s'.byHandle[r.handle] == r)
    decreases |inserts|
  {
    if inserts == [] {
    } else {
      var s1 := Add(s, inserts[0].start, inserts[0].end, inserts[0].addrs);
      AddKeeps(s, inserts[0].start, inserts[0].end, inserts[0].addrs);
      AddAllKeeps(s1, inserts[1..]);
    }
  }

  /** The k-th insert is in the index, under the handle 1000 + k, and nothing else is. */
  ghost predicate InsertedAs(s: State, inserts: seq<Insert>) {
    && |s.byAddress| == |s.byHandle| == |inserts|
    && (forall h :: h in s.byHandle <==> 1000 <= h < 1000 + |inserts|)
    && (forall k :: 0 <= k < |inserts| ==>
          var r := Range(1000 + k, inserts[k].start, inserts[k].end, inserts[k].addrs);
          s.byHandle[1000 + k] == r && r in s.byAddress)
  }

  lemma OneMoreInserted(s: State, inserts: seq<Insert>, last: Insert)
    requires InsertedAs(s, inserts)
    ensures InsertedAs(Add(s, last.start, last.end, last.addrs), inserts + [last])
  {
    hide PartitionPoint, Starts;
    var r := NewRange(s, last.start, last.end, last.addrs);
    SameLength(s.byAddress);
    InsertMembers(s.byAddress, r);
    AddHandle(s.byHandle, r);
  }

  /** From the empty index on: the ranges are sorted by start, and the k-th insert has handle 1000 + k. */
  lemma {:induction false} InsertsNumbered(inserts: seq<Insert>)
    ensures var s := AddAll(INIT, inserts);
      && InsertedAs(s, inserts)
      && (forall i, j :: 0 <= i < j < |s.byAddress| ==> s.byAddress[i].start <= s.byAddress[j].start)
  {
    if inserts == [] {
      assert InsertedAs(AddAll(INIT, inserts), inserts);
    } else {
      hide InsertedAs, Inserted, Add;
      var n := |inserts| - 1;
      InsertsNumbered(inserts[..n]);
      OneMoreInserted(AddAll(INIT, inserts[..n]), inserts[..n], inserts[n]);
      AddedLast(INIT, inserts);
      assert inserts[..n] + [inserts[n]] == inserts;
    }
    hide InsertedAs, Inserted, Add, AddAll, Sorted, Numbered;
    AddAllKeeps(INIT, inserts);
    SortedStarts(AddAll(INIT, inserts).byAddress);
  }

  lemma SortedStarts(rs: seq<Range>)
    requires Sorted(rs)
    ensures forall i, j :: 0 <= i < j < |rs| ==> rs[i].start <= rs[j].start
  {
    forall i, j | 0 <= i < j < |rs| ensures rs[i].start <= rs[j].start {
      assert Starts(rs)[i] <= Starts(rs)[j];
    }
  }

  lemma {:induction false} AddedLast(s: State, inserts: seq<Insert>)
    requires inserts != []
    ensures var n := |inserts| - 1;
      AddAll(s, inserts) == Add(AddAll(s, inserts[..n]), inserts[n].start, inserts[n].end, inserts[n].addrs)
    decreases |inserts|
  {
    var n := |inserts| - 1;
    var s1 := Add(s, inserts[0].start, inserts[0].end, inserts[0].addrs);
    if n == 0 {
      assert inserts[..0] == [] && inserts[1..] == [];
    } else {
      AddedLast(s1, inserts[1..]);
      assert inserts[1..][..n - 1] == inserts[..n][1..];
    }
  }

  /**
   Once a lookup has returned a range that contains its address, the same lookup returns the same
   range, whatever else was inserted, as long as the ranges are nonempty and disjoint.
   */
  lemma CachedForever(s: State, addr: nat, code: Code, inserts: seq<Insert>, later: Code)
    requires Inv(s) && FromAddress(s, addr, code).1.Some?
    requires var (s1, r) := FromAddress(s, addr, code);
      Contains(r.value, addr) && DisjointRanges(AddAll(s1, inserts).byAddress)
    ensures var (s1, r) := FromAddress(s, addr, code);
      var s2 := AddAll(s1, inserts);
      FromAddress(s2, addr, later) == (s2, r) && r.value.handle in s2.byHandle && s2.byHandle[r.value.handle] == r.value
  {
    hide Find, Add, Sorted, DisjointRanges;
    var (s1, r) := FromAddress(s, addr, code);
    FoundContains(s, addr);
    if Find(s, addr).None? {
      AddKeeps(s, CodeStart(addr, code), CodeEnd(addr, code), code.addrs);
    }
    AddAllKeeps(s1, inserts);
    FindIsLinearSearch(AddAll(s1, inserts), addr, r.value);
  }

  /**
   After a lookup that added a range, the same lookup finds that range if and only if the range contains
   the address and no older range starts between the new range's start and the address: those come after
   the new range, even when they are empty.
   */
  lemma FoundAgainExactly(s: State, addr: nat, code: Code)
    requires Inv(s) && Find(s, addr).None? && code.addrs != []
    ensures var (s1, r) := FromAddress(s, addr, code);
      && r.Some?
      && (Find(s1, addr) == r <==>
            Contains(r.value, addr) && forall older <- s.byAddress :: !(r.value.start <= older.start <= addr))
  {
    hide PartitionPoint, Starts, Sorted, Numbered;
    var (s1, r) := FromAddress(s, addr, code);
    var x := r.value;
    AddKeeps(s, x.start, x.end, x.addrs);
    var idx := NewPlace(s.byAddress, x);
    NewHandle(s);
    hide Find, Inv, Inserted;
    FoundContains(s1, addr);
    if Contains(x, addr) {
      if older :| older in s.byAddress && x.start <= older.start <= addr {
        var k := OlderAfter(s.byAddress, x, older);
        var j := Candidate(s1.byAddress, addr, k);
        NotNew(s, x, s1.byAddress, idx, j);
        FindAt(s1, addr, j);
      } else {
        var i := Candidate(s1.byAddress, addr, idx);
        if idx < i {
          OlderThere(s.byAddress, x, idx, i);
        }
        FindAt(s1, addr, i);
      }
    }
  }

  lemma FindAt(s: State, addr: nat, i: nat)
    requires i < |s.byAddress| && PartitionPoint(Starts(s.byAddress), addr + 1) == i + 1
    ensures Find(s, addr) == if Contains(s.byAddress[i], addr) then Some(s.byAddress[i]) else None
  {
  }

  lemma NewPlace(rs: seq<Range>, x: Range) returns (idx: nat)
    requires Sorted(rs)
    ensures idx < |Inserted(rs, x)| && Inserted(rs, x)[idx] == x && idx == PartitionPoint(Starts(rs), x.start)
  {
    SameLength(rs);
    idx := PartitionPoint(Starts(rs), x.start);
  }

  /** An older range that starts at or after the new one comes after it. */
  lemma OlderAfter(rs: seq<Range>, x: Range, older: Range) returns (k: nat)
    requires Sorted(rs) && older in rs && x.start <= older.start
    ensures PartitionPoint(Starts(rs), x.start) < k < |Inserted(rs, x)| && Inserted(rs, x)[k] == older
  {
    SameLength(rs);
    var i :| 0 <= i < |rs| && rs[i] == older;
    var idx := PartitionPoint(Starts(rs), x.start);
    assert Starts(rs)[i] == older.start;
    k := i + 1;
  }

  /** What comes after the new range is older, and starts at or after it. */
  lemma OlderThere(rs: seq<Range>, x: Range, idx: nat, i: nat)
    requires Sorted(rs) && idx == PartitionPoint(Starts(rs), x.start) && idx < i < |Inserted(rs, x)|
    ensures Inserted(rs, x)[i] in rs && x.start <= Inserted(rs, x)[i].start
  {
    SameLength(rs);
    assert Inserted(rs, x)[i] == rs[i - 1];
    assert Starts(rs)[idx] <= Starts(rs)[i - 1];
  }

  lemma NotNew(s: State, x: Range, rs': seq<Range>, idx: nat, j: nat)
    requires Inv(s) && x.handle !in s.byHandle && rs' == Inserted(s.byAddress, x)
    requires idx == PartitionPoint(Starts(s.byAddress), x.start) && idx < j < |rs'|
    ensures rs'[j] != x
  {
    OlderThere(s.byAddress, x, idx, j);
  }

  /** An address outside every symbol from which only one instruction can be read is never found again: each lookup adds a range. */
  lemma SingleInstructionNotCached(s: State, addr: nat)
    requires Inv(s) && Find(s, addr).None?
    ensures var (s1, r) := FromAddress(s, addr, Bare([addr]));
      && r.Some? && !Contains(r.value, addr)
      && Find(s1, addr).None?
      && FromAddress(s1, addr, Bare([addr])).1 != r
  {
    hide PartitionPoint, Starts, Sorted;
    var (s1, r) := FromAddress(s, addr, Bare([addr]));
    AddKeeps(s, addr, addr, [addr]);
    NewAtAddress(s.byAddress, r.value, addr);
    AddedNotFound(s, s1, r.value, addr);
  }

  lemma AddedNotFound(s: State, s1: State, x: Range, addr: nat)
    requires Find(s, addr).None? && !Contains(x, addr)
    requires s1.byAddress == Inserted(s.byAddress, x)
    requires PartitionPoint(Starts(s1.byAddress), addr + 1) == PartitionPoint(Starts(s.byAddress), addr + 1) + 1
    requires x.start == addr
    ensures Find(s1, addr).None?
  {
    var below, at := PartitionPoint(Starts(s.byAddress), addr), PartitionPoint(Starts(s.byAddress), addr + 1);
    PointsOrdered(Starts(s.byAddress), addr);
    if at == below {
      assert s1.byAddress[at] == x;
    } else {
      assert s1.byAddress[at] == s.byAddress[at - 1];
    }
  }

  lemma {:induction false} PointsOrdered(xs: seq<nat>, addr: nat)
    ensures PartitionPoint(xs, addr) <= PartitionPoint(xs, addr + 1)
  {
    if xs != [] && xs[0] < addr {
      PointsOrdered(xs[1..], addr);
    }
  }

  lemma StartsInserted(rs: seq<Range>, x: Range)
    ensures var idx := PartitionPoint(Starts(rs), x.start);
      Starts(Inserted(rs, x)) == Starts(rs)[..idx] + [x.start] + Starts(rs)[idx..]
  {
    hide PartitionPoint;
  }

  /** A range inserted at an address comes before the older ranges that start there. */
  lemma NewAtAddress(rs: seq<Range>, x: Range, addr: nat)
    requires Sorted(rs) && x.start == addr
    ensures PartitionPoint(Starts(Inserted(rs, x)), addr + 1) == PartitionPoint(Starts(rs), addr + 1) + 1
  {
    var starts := Starts(rs);
    var below, at := PartitionPoint(starts, addr), PartitionPoint(starts, addr + 1);
    var starts' := starts[..below] + [addr] + starts[below..];
    StartsInserted(rs, x);
    PointsOrdered(starts, addr);
    InsertedPoint(starts, starts', below, at, addr);
  }

  lemma InsertedPoint(starts: seq<nat>, starts': seq<nat>, below: nat, at: nat, addr: nat)
    requires below <= at <= |starts| && starts' == starts[..below] + [addr] + starts[below..]
    requires forall i :: 0 <= i < at ==> starts[i] <= addr
    requires at < |starts| ==> starts[at] > addr
    ensures PartitionPoint(starts', addr + 1) == at + 1
  {
    forall i | 0 <= i < at + 1 ensures starts'[i] < addr + 1 {
      assert starts'[i] == if i < below then starts[i] else if i == below then addr else starts[i - 1];
    }
    PointIs(starts', addr + 1, at + 1);
  }

  // ---- Lines and addresses of a range ----

  const U32 := 0x1_0000_0000

  /** Two header lines and numbering from 1 put the first instruction on line 3. */
  function LineOf(addrs: seq<nat>, addr: nat): nat {
    PartitionPoint(addrs, addr) + 3
  }

  function AddressOf(addrs: seq<nat>, line: nat): nat
    requires 3 <= line < 3 + |addrs|
  {
    addrs[line - 3]
  }

  /** On instruction lines the two maps are inverses of each other. */
  lemma LinesAndAddresses(addrs: seq<nat>, i: nat)
    requires i < |addrs| && forall j, k :: 0 <= j < k < |addrs| ==> addrs[j] < addrs[k]
    ensures LineOf(addrs, addrs[i]) == i + 3
    ensures AddressOf(addrs, LineOf(addrs, addrs[i])) == addrs[i]
    ensures LineOf(addrs, AddressOf(addrs, i + 3)) == i + 3
  {
    PointIs(addrs, addrs[i], i);
  }

  datatype AdapterData = AdapterData(start: nat, lineOffsets: seq<nat>)

  /** The distances between neighbours, truncated to 32 bits. */
  function Offsets(addrs: seq<nat>): seq<nat>
    requires Ascending(addrs)
  {
    if |addrs| < 2 then [] else [Truncate(addrs[1] - addrs[0])] + Offsets(addrs[1..])
  }

  function Truncate(gap: nat): nat {
    gap % U32
  }

  function Sums(from: nat, offsets: seq<nat>): seq<nat>
    decreases |offsets|
  {
    if offsets == [] then [] else [from + offsets[0]] + Sums(from + offsets[0], offsets[1..])
  }

  /** Line 0, the two header lines and the first instruction, then one line for each distance. */
  function LinesFrom(d: AdapterData): seq<nat> {
    [d.start, d.start, d.start, d.start] + Sums(d.start, d.lineOffsets)
  }

  predicate SmallGaps(addrs: seq<nat>) {
    |addrs| < 2 || (addrs[0] <= addrs[1] < addrs[0] + U32 && SmallGaps(addrs[1..]))
  }

  lemma {:induction false} SumsOfOffsets(addrs: seq<nat>)
    requires addrs != [] && Ascending(addrs)
    ensures [addrs[0]] + Sums(addrs[0], Offsets(addrs)) == addrs <==> SmallGaps(addrs)
  {
    hide Truncate;
    if |addrs| > 1 {
      var rest := addrs[1..];
      var from := addrs[0] + Truncate(addrs[1] - addrs[0]);
      var read := [addrs[0]] + Sums(addrs[0], Offsets(addrs));
      SumsOfOffsets(rest);
      TruncateSmall(addrs[1] - addrs[0]);
      assert read[1..] == [from] + Sums(from, Offsets(rest));
      assert addrs == [addrs[0]] + rest;
      assert read == addrs <==> read[1..] == rest;
      assert from != rest[0] ==> read[1] != addrs[1];
    } else {
      assert addrs == [addrs[0]];
    }
  }

  lemma TruncateSmall(gap: nat)
    ensures Truncate(gap) == gap <==> gap < U32
  {
  }

  predicate SmallGap(addrs: seq<nat>, i: nat)
    requires 1 <= i < |addrs|
  {
    addrs[i] < addrs[i - 1] + 0x1_0000_0000
  }

  /** The gaps of a list are small exactly when each of them fits in 32 bits. */
  lemma {:induction false} SmallGapsMeans(addrs: seq<nat>)
    requires Ascending(addrs)
    ensures SmallGaps(addrs) <==> forall i :: 1 <= i < |addrs| ==> SmallGap(addrs, i)
  {
    if |addrs| >= 2 {
      var rest := addrs[1..];
      SmallGapsMeans(rest);
      assert forall i :: 1 <= i < |rest| ==> SmallGap(rest, i) == SmallGap(addrs, i + 1);
      if forall i :: 1 <= i < |rest| ==> SmallGap(rest, i) {
        forall i | 2 <= i < |addrs| ensures SmallGap(addrs, i) == SmallGap(rest, i - 1) {
        }
      }
      assert SmallGap(addrs, 1) <==> addrs[1] < addrs[0] + U32;
    }
  }

  /**
   Decoding the adapter data of a range gives back every instruction address at its line, if and only
   if the instructions start at the range's start and no gap between them needs more than 32 bits.
   */
  lemma AdapterDataRoundTrip(start: nat, addrs: seq<nat>)
    requires addrs != [] && Ascending(addrs)
    ensures LinesFrom(AdapterData(start, Offsets(addrs)))[3..] == addrs <==> addrs[0] == start && SmallGaps(addrs)
    ensures LinesFrom(AdapterData(start, Offsets(addrs)))[..3] == [start, start, start]
  {
    hide Sums, Offsets, SmallGaps, Ascending;
    var lines := LinesFrom(AdapterData(start, Offsets(addrs)));
    assert lines[3..] == [start] + Sums(start, Offsets(addrs));
    if addrs[0] == start {
      SumsOfOffsets(addrs);
    }
  }
}
