/**
 Reading a NUL-terminated string through an API that fills a buffer, in a world where such APIs do not
 agree on the size they return; and passing a string to an API that expects a NUL-terminated one.
 */
module CStrings {
  import opened Results

  type Byte = b: int | 0 <= b < 256

  const STACK_SIZE: nat := 1024

  predicate NoNul(s: seq<Byte>) {
    forall k :: 0 <= k < |s| ==> s[k] != 0
  }

  /** The bytes before the first NUL of a buffer; none if there is no NUL. */
  function ReadToNul(buffer: seq<Byte>): Option<seq<Byte>> {
    if buffer == [] then None
    else if buffer[0] == 0 then Some([])
    else
      match ReadToNul(buffer[1..])
      case None => None
      case Some(rest) => Some([buffer[0]] + rest)
  }

  lemma {:induction false} ReadBack(s: seq<Byte>, buffer: seq<Byte>)
    requires NoNul(s) && |s| < |buffer| && buffer[..|s|] == s && buffer[|s|] == 0
    ensures ReadToNul(buffer) == Some(s)
  {
    if s == [] {
    } else {
      assert buffer[0] == s[0];
      assert buffer[1..][..|s| - 1] == s[1..];
      ReadBack(s[1..], buffer[1..]);
      assert [s[0]] + s[1..] == s;
    }
  }

  // ---- The API on the other side ----

  /** How much of a string fits into a buffer beside its NUL. */
  function Stored(text: seq<Byte>, capacity: nat): nat
    requires capacity > 0
  {
    if |text| < capacity then |text| else capacity - 1
  }

  /**
   The API stores the longest prefix that fits, and a NUL. The size it returns, which may differ from call
   to call, is the number of bytes stored, or the number needed, or anything between, with or without the NUL.
   */
  ghost predicate SizesAllowed(text: seq<Byte>, sizes: (nat, nat) -> nat) {
    forall call: nat, capacity: nat | capacity > 0 :: Stored(text, capacity) <= sizes(call, capacity) <= |text| + 1
  }

  method FillBuffer(text: seq<Byte>, buffer: array<Byte>)
    requires buffer.Length > 0
    modifies buffer
    ensures var n := Stored(text, buffer.Length); buffer[..n] == text[..n] && buffer[n] == 0
  {
    var n := Stored(text, buffer.Length);
    var i := 0;
    while i < n
      invariant i <= n
      invariant buffer[..i] == text[..i]
    {
      buffer[i] := text[i];
      i := i + 1;
    }
    buffer[n] := 0;
  }

  /** Two to the power of n. */
  function Pow2(n: nat): (p: nat)
    ensures p > n
  {
    if n == 0 then 1 else 2 * Pow2(n - 1)
  }

  /** One call of the API with a new buffer; the size it returned tells whether the buffer holds the whole string. */
  method Attempt(text: seq<Byte>, capacity: nat, size: nat) returns (result: Option<seq<Byte>>)
    requires NoNul(text) && capacity > 1 && Stored(text, capacity) <= size
    ensures result == if size < capacity - 1 then Some(text) else None
  {
    var buffer := new Byte[capacity](_ => 0);
    FillBuffer(text, buffer);
    // At least one unused byte, or the string may have been cut short.
    if size < buffer.Length - 1 {
      ReadBack(text, buffer[..]);
      return ReadToNul(buffer[..]);
    }
    return None;
  }

  lemma TooShort(text: seq<Byte>, sizes: (nat, nat) -> nat, call: nat, capacity: nat)
    requires SizesAllowed(text, sizes) && capacity > 0
    ensures Stored(text, capacity) <= sizes(call, capacity) <= |text| + 1
  {
  }

  ghost predicate SameSize(sizes: (nat, nat) -> nat, size: nat) {
    forall call, capacity :: sizes(call, capacity) == size
  }

  /**
   Whatever convention the API follows, the loop ends with the whole string. An API that always returns
   the same size is called at most twice; no API is called more often than it takes to double the stack
   buffer to the length of the string, give or take one call. An allocator may grant more than it was
   asked for.
   */
  method GetCString(text: seq<Byte>, sizes: (nat, nat) -> nat, granted: nat -> nat)
    returns (result: seq<Byte>, calls: nat)
    requires NoNul(text) && SizesAllowed(text, sizes)
    requires forall n :: granted(n) >= n
    ensures result == text
    ensures calls == 1 <==> sizes(0, 1024) < 1023
    ensures |text| < 1022 ==> calls == 1
    ensures SameSize(sizes, sizes(0, 1024)) ==> calls <= 2
    ensures calls > 2 ==> 1024 * Pow2(calls - 3) <= |text| + 2
  {
    hide SizesAllowed, Stored, NoNul;
    var size := sizes(0, STACK_SIZE);
    TooShort(text, sizes, 0, STACK_SIZE);
    var read := Attempt(text, STACK_SIZE, size);
    calls := 1;
    if read.Some? {
      return read.value, calls;
    }
    ghost var first := size;
    var capacity := granted(if size > STACK_SIZE then size + 2 else STACK_SIZE * 2);
    while true
      invariant calls >= 1 && capacity >= STACK_SIZE * Pow2(calls - 1) && capacity > STACK_SIZE
      invariant calls == 1 ==> capacity > first + 1
      invariant calls > 1 ==> STACK_SIZE * Pow2(calls - 2) <= |text| + 2
      invariant SameSize(sizes, first) ==> calls == 1
      invariant |text| + 2 >= STACK_SIZE
      decreases |text| + 3 - capacity
    {
      TooShort(text, sizes, calls, capacity);
      size := sizes(calls, capacity);
      read := Attempt(text, capacity, size);
      calls := calls + 1;
      if read.Some? {
        return read.value, calls;
      }
      capacity := granted(capacity * 2);
    }
  }

  // ---- Passing a string the other way ----

  const LOCAL_SIZE := 256

  /**
   A short string is copied to the stack and ended with a NUL; a long one becomes a C string on the heap,
   which fails if it holds a NUL. The result is the buffer the API gets to see.
   */
  method WithCStr(bytes: seq<Byte>) returns (seen: Option<seq<Byte>>)
    ensures |bytes| >= 256 ==> (seen.Some? <==> NoNul(bytes)) && (seen.Some? ==> |seen.value| == |bytes| + 1)
    ensures |bytes| < 256 ==> seen.Some? && |seen.value| == 256
    ensures seen.Some? ==> bytes + [0] <= seen.value
  {
    if |bytes| < LOCAL_SIZE {
      var buffer := new Byte[LOCAL_SIZE](_ => 0);
      var i := 0;
      while i < |bytes|
        invariant i <= |bytes|
        invariant buffer[..i] == bytes[..i]
      {
        buffer[i] := bytes[i];
        i := i + 1;
      }
      buffer[|bytes|] := 0;
      assert buffer[..][..|bytes| + 1] == bytes + [0];
      seen := Some(buffer[..]);
    } else if forall k :: 0 <= k < |bytes| ==> bytes[k] != 0 {
      seen := Some(bytes + [0]);
    } else {
      seen := None;
    }
  }

  /** The API reads back exactly the string if the string holds no NUL, and a shorter one otherwise. */
  lemma {:induction false} SeenAsWhole(bytes: seq<Byte>, seen: seq<Byte>)
    requires bytes + [0] <= seen
    ensures ReadToNul(seen).Some?
    ensures ReadToNul(seen) == Some(bytes) <==> NoNul(bytes)
    ensures ReadToNul(seen).value <= bytes
  {
    assert seen[|bytes|] == (bytes + [0])[|bytes|] == 0;
    if bytes == [] {
    } else {
      assert seen[0] == bytes[0];
      if bytes[0] != 0 {
        assert bytes[1..] + [0] == (bytes + [0])[1..] <= seen[1..];
        SeenAsWhole(bytes[1..], seen[1..]);
        assert bytes == [bytes[0]] + bytes[1..];
      }
    }
  }
}
