/** The Go client's memory-mapped file buffer: a fixed-size byte region with an `int32`
    cursor, read and written with big-endian integers and length-prefixed strings. */
module MappedBuffer {
  import opened Wrappers
  import opened Bytes
  import opened Text

  /** An error value returned by a method, or a Go runtime panic (index or slice out of range). */
  datatype Fault = Failed(message: string) | Panic

  /** A value read and the cursor after it. */
  datatype Step<T> = Step(value: T, pos: int)

  /** The region and the cursor after a write. */
  datatype Stored = Stored(mem: seq<Byte>, pos: int)

  predicate IsInt16(v: int) { -0x8000 <= v < 0x8000 }

  /** A region the `int32` length field can describe. */
  predicate Region(mem: seq<Byte>) { |mem| <= MaxInt32 }

  const StringTooLong := "PutString error, string longer than 127"
  const BadStringLength := "GetString error, invalid length in first byte"

  /** `check(forward)`: `pos + forward` is computed in `int32` and compared with the length. */
  function Check(mem: seq<Byte>, pos: int, forward: int): (e: Option<string>)
    requires Region(mem) && IsInt32(pos) && IsInt32(forward)
    ensures IsInt32(pos + forward) ==> (e.None? <==> pos + forward <= |mem|)
  {
    if Wrap32(pos + forward) > |mem| then
      Some("pos=" + IntDecimal(pos) + ", invalid to forward " + IntDecimal(forward) + " byte")
    else None
  }

  /** `mem` with `src` written over it from `at` on. */
  function Overwrite(mem: seq<Byte>, at: nat, src: seq<Byte>): (r: seq<Byte>)
    requires at + |src| <= |mem|
    ensures |r| == |mem|
    ensures forall i :: 0 <= i < |r| ==> r[i] == if at <= i < at + |src| then src[i - at] else mem[i]
  {
    mem[..at] + src + mem[at + |src|..]
  }

  /** `check(n)` followed by the slice `data[pos:pos+n]`. */
  function Take(mem: seq<Byte>, pos: int, n: int): (r: Result<seq<Byte>, Fault>)
    requires Region(mem) && IsInt32(pos) && IsInt32(n)
    ensures r.Ok? <==> 0 <= pos && 0 <= n && pos + n <= |mem|
    ensures r.Ok? ==> r.value == mem[pos..pos + n]
    ensures 0 <= pos && 0 <= n && |mem| < pos + n <= MaxInt32 ==> r.Err? && r.error.Failed?
  {
    match Check(mem, pos, n)
    case Some(msg) => Err(Failed(msg))
    case None =>
      var hi := Wrap32(pos + n);
      if 0 <= pos <= hi <= |mem| then Ok(mem[pos..hi]) else Err(Panic)
  }

  // ---------------------------------------------------------------------------------------
  // Reads

  /** `GetByte`. */
  function GetByteAt(mem: seq<Byte>, pos: int): (r: Result<Step<Byte>, Fault>)
    requires Region(mem) && IsInt32(pos)
    ensures r.Ok? <==> 0 <= pos < |mem|
    ensures r.Ok? ==> r.value == Step(mem[pos], pos + 1)
  {
    match Check(mem, pos, 1)
    case Some(msg) => Err(Failed(msg))
    case None => if 0 <= pos < |mem| then Ok(Step(mem[pos], Wrap32(pos + 1))) else Err(Panic)
  }

  /** `GetInt16`/`GetInt32`/`GetInt64`: `width` bytes read as a signed big-endian integer. */
  function GetIntAt(mem: seq<Byte>, pos: int, width: nat): (r: Result<Step<int>, Fault>)
    requires Region(mem) && IsInt32(pos) && 0 < width <= 8
    ensures r.Ok? <==> 0 <= pos && pos + width <= |mem|
    ensures r.Ok? ==> r.value.pos == pos + width && -Half(width) <= r.value.value < Half(width)
  {
    match Take(mem, pos, width)
    case Err(f) => Err(f)
    case Ok(b) => Ok(Step(Signed(FromBE(b), width), pos + width))
  }

  /** `GetBytes(n)`. */
  function GetBytesAt(mem: seq<Byte>, pos: int, n: int): (r: Result<Step<seq<Byte>>, Fault>)
    requires Region(mem) && IsInt32(pos) && IsInt32(n)
    ensures r.Ok? <==> 0 <= pos && 0 <= n && pos + n <= |mem|
    ensures r.Ok? ==> r.value == Step(mem[pos..pos + n], pos + n)
  {
    match Take(mem, pos, n)
    case Err(f) => Err(f)
    case Ok(b) => Ok(Step(b, pos + n))
  }

  /** `GetString`: a length byte of at most 127, then that many bytes. */
  function GetStringAt(mem: seq<Byte>, pos: int): (r: Result<Step<seq<Byte>>, Fault>)
    requires Region(mem) && IsInt32(pos)
    ensures r.Ok? ==>
      && 0 <= pos < |mem| && mem[pos] <= 127 && pos + 1 + mem[pos] as int <= |mem|
      && r.value == Step(mem[pos + 1..pos + 1 + mem[pos] as int], pos + 1 + mem[pos] as int)
    ensures 0 <= pos < |mem| && mem[pos] > 127 ==> r == Err(Failed(BadStringLength))
    ensures 0 <= pos < |mem| && mem[pos] <= 127 && pos + 1 + mem[pos] as int <= |mem| ==>
      r == Ok(Step(mem[pos + 1..pos + 1 + mem[pos] as int], pos + 1 + mem[pos] as int))
    ensures 0 <= pos < |mem| && mem[pos] <= 127 && |mem| < pos + 1 + mem[pos] as int <= MaxInt32 ==>
      r == Err(Failed(Check(mem, pos, mem[pos] as int + 1).value))
  {
    match Check(mem, pos, 1)
    case Some(msg) => Err(Failed(msg))
    case None =>
      if !(0 <= pos < |mem|) then Err(Panic)
      else
        var n := mem[pos] as int;
        if n > 127 then Err(Failed(BadStringLength))
        else
          match Check(mem, pos, n + 1)
          case Some(msg) => Err(Failed(msg))
          case None =>
            var lo := Wrap32(pos + 1);
            var hi := Wrap32(pos + (n + 1));
            if 0 <= lo <= hi <= |mem| then Ok(Step(mem[lo..hi], hi)) else Err(Panic)
  }

  // ---------------------------------------------------------------------------------------
  // Writes

  /** `PutByte`. */
  function PutByteAt(mem: seq<Byte>, pos: int, v: Byte): (r: Result<Stored, Fault>)
    requires Region(mem) && IsInt32(pos)
    ensures r.Ok? <==> 0 <= pos < |mem|
    ensures r.Ok? ==> r.value == Stored(mem[pos := v], pos + 1)
  {
    match Check(mem, pos, 1)
    case Some(msg) => Err(Failed(msg))
    case None => if 0 <= pos < |mem| then Ok(Stored(mem[pos := v], Wrap32(pos + 1))) else Err(Panic)
  }

  /** `PutInt16`/`PutInt32`/`PutInt64`: check that `step` bytes remain, write the `width`-byte
      pattern of `v` at the cursor and advance it by `step`. */
  function PutIntAt(mem: seq<Byte>, pos: int, step: nat, width: nat, v: int): (r: Result<Stored, Fault>)
    requires Region(mem) && IsInt32(pos) && 0 < width <= step <= 24 && -Half(width) <= v < Half(width)
    ensures r.Ok? <==> 0 <= pos && pos + step <= |mem|
    ensures r.Ok? ==> r.value.pos == pos + step
  {
    match Take(mem, pos, step)
    case Err(f) => Err(f)
    case Ok(_) => Ok(Stored(Overwrite(mem, pos, ToBE(Unsigned(v, width), width)), pos + step))
  }

  /** The `n` that `PutInt16`, `PutInt32` and `PutInt64` check and advance by. */
  function PutStep(width: nat): nat { if width == 2 then 2 else 24 }

  /** `PutBytes`: the length is taken as an `int32`; `copy` writes what fits. */
  function PutBytesAt(mem: seq<Byte>, pos: int, value: seq<Byte>): (r: Result<Stored, Fault>)
    requires Region(mem) && IsInt32(pos)
    ensures 0 <= pos && pos + |value| <= MaxInt32 ==>
      (r.Ok? <==> pos + |value| <= |mem|) &&
      (r.Ok? ==> r.value == Stored(Overwrite(mem, pos, value), pos + |value|))
  {
    var n := Wrap32(|value|);
    match Check(mem, pos, n)
    case Some(msg) => Err(Failed(msg))
    case None =>
      if 0 <= pos <= |mem| then
        var k := if |value| <= |mem| - pos then |value| else |mem| - pos;
        Ok(Stored(Overwrite(mem, pos, value[..k]), Wrap32(pos + n)))
      else Err(Panic)
  }

  /** `PutString`: at most 127 bytes, stored after a length byte. */
  function PutStringAt(mem: seq<Byte>, pos: int, value: seq<Byte>): (r: Result<Stored, Fault>)
    requires Region(mem) && IsInt32(pos)
    ensures r.Ok? ==> 0 <= pos < |mem| && Wrap32(|value|) <= 127
  {
    var n := Wrap32(|value|);
    if n > 127 then Err(Failed(StringTooLong))
    else
      match Check(mem, pos, Wrap32(n + 1))
      case Some(msg) => Err(Failed(msg))
      case None =>
        if !(0 <= pos < |mem|) then Err(Panic)
        else
          var m := mem[pos := ((n % 256) as Byte)];
          var k := if |value| <= |m| - (pos + 1) then |value| else |m| - (pos + 1);
          Ok(Stored(Overwrite(m, pos + 1, value[..k]), Wrap32(pos + Wrap32(n + 1))))
  }

  /** A stored string keeps the region's size and every byte before its position, and puts its
      length in the byte at the position. */
  lemma PutStringAtKeepsBefore(mem: seq<Byte>, pos: int, value: seq<Byte>)
    requires Region(mem) && IsInt32(pos)
    ensures var r := PutStringAt(mem, pos, value);
      r.Ok? ==>
        && |r.value.mem| == |mem| && r.value.mem[..pos] == mem[..pos]
        && r.value.mem[pos] == (Wrap32(|value|) % 256) as Byte
  {
  }

  /** `PutString` refuses strings over 127 bytes, and otherwise succeeds exactly when the length
      byte and the bytes fit, storing both. */
  lemma PutStringOutcome(mem: seq<Byte>, pos: int, value: seq<Byte>)
    requires Region(mem) && IsInt32(pos)
    ensures 127 < |value| <= MaxInt32 ==> PutStringAt(mem, pos, value) == Err(Failed(StringTooLong))
    ensures |value| <= 127 && 0 <= pos && pos + 1 + |value| <= MaxInt32 ==>
      var r := PutStringAt(mem, pos, value);
      && (r.Ok? <==> pos + 1 + |value| <= |mem|)
      && (r.Ok? ==> r.value == Stored(Overwrite(mem, pos, [|value| as Byte] + value), pos + 1 + |value|))
  {
    if |value| <= 127 && 0 <= pos && pos + 1 + |value| < |mem| {
      LengthThenBytes(mem, pos, value);
    }
  }

  /** Writing the length byte and then the bytes is writing the two together. */
  lemma LengthThenBytes(mem: seq<Byte>, pos: nat, value: seq<Byte>)
    requires |value| <= 127 && pos + 1 + |value| <= |mem|
    ensures Overwrite(mem[pos := |value| as Byte], pos + 1, value)
         == Overwrite(mem, pos, [|value| as Byte] + value)
  {
    var m := mem[pos := |value| as Byte];
    assert m[..pos] == mem[..pos] && m[pos + 1 + |value|..] == mem[pos + 1 + |value|..];
    assert Overwrite(m, pos + 1, value) == mem[..pos] + [|value| as Byte] + value + mem[pos + 1 + |value|..];
  }

  lemma {:induction false} FromBEOfZeros(n: nat)
    ensures FromBE(Zeros(n)) == 0
  {
    if n > 0 {
      assert Zeros(n)[..n - 1] == Zeros(n - 1);
      FromBEOfZeros(n - 1);
    }
  }

  // ---------------------------------------------------------------------------------------
  // Round trips

  /** A byte put at the cursor is the byte got there. */
  lemma ByteRoundTrip(mem: seq<Byte>, pos: int, v: Byte)
    requires Region(mem) && IsInt32(pos) && PutByteAt(mem, pos, v).Ok?
    ensures GetByteAt(PutByteAt(mem, pos, v).value.mem, pos) == Ok(Step(v, PutByteAt(mem, pos, v).value.pos))
  {
  }

  /** An integer put at the cursor is the integer got there, whatever step the put advances by. */
  lemma IntRoundTrip(mem: seq<Byte>, pos: int, step: nat, width: nat, v: int)
    requires Region(mem) && IsInt32(pos) && 0 < width <= 8 && width <= step <= 24 && -Half(width) <= v < Half(width)
    requires PutIntAt(mem, pos, step, width, v).Ok?
    ensures GetIntAt(PutIntAt(mem, pos, step, width, v).value.mem, pos, width) == Ok(Step(v, pos + width))
  {
    var m := PutIntAt(mem, pos, step, width, v).value.mem;
    var b := ToBE(Unsigned(v, width), width);
    assert m[pos..pos + width] == b;
    SignedRoundTrip(v, width);
  }

  /** The bytes put at the cursor are the bytes got there, when the cursor arithmetic does not
      overflow. */
  lemma BytesRoundTrip(mem: seq<Byte>, pos: int, value: seq<Byte>, st: Stored)
    requires Region(mem) && 0 <= pos && pos + |value| <= MaxInt32
    requires PutBytesAt(mem, pos, value) == Ok(st)
    ensures GetBytesAt(st.mem, pos, |value|) == Ok(Step(value, st.pos))
  {
    assert st.mem[pos..pos + |value|] == value;
  }

  /** A string put at the cursor is the string got there. */
  lemma StringRoundTrip(mem: seq<Byte>, pos: int, value: seq<Byte>, st: Stored)
    requires Region(mem) && 0 <= pos && |value| <= 127 && pos + 1 + |value| <= MaxInt32
    requires PutStringAt(mem, pos, value) == Ok(st)
    ensures GetStringAt(st.mem, pos) == Ok(Step(value, st.pos))
  {
    PutStringOutcome(mem, pos, value);
    var f := [|value| as Byte] + value;
    assert st.mem[pos..pos + |f|] == f;
    assert st.mem[pos] == f[0];
    assert st.mem[pos + 1..pos + 1 + |value|] == f[1..];
  }

  /** A write leaves the bytes outside the range it covers alone. */
  lemma OverwriteElsewhere(mem: seq<Byte>, at: nat, src: seq<Byte>, lo: nat, hi: nat)
    requires at + |src| <= |mem| && lo <= hi <= |mem| && (hi <= at || at + |src| <= lo)
    ensures Overwrite(mem, at, src)[lo..hi] == mem[lo..hi]
  {
    var r := Overwrite(mem, at, src);
    assert forall j :: 0 <= j < hi - lo ==> r[lo..hi][j] == r[lo + j] && mem[lo..hi][j] == mem[lo + j];
  }

  /** What `GetInt` reads at `pos` is not changed by a put whose bytes lie elsewhere. */
  lemma GetIntUnaffected(mem: seq<Byte>, pos: nat, width: nat, at: int, step: nat, w: nat, v: int)
    requires Region(mem) && 0 < width <= 8 && pos + width <= |mem|
    requires IsInt32(at) && 0 < w <= 8 && w <= step <= 24 && -Half(w) <= v < Half(w)
    requires PutIntAt(mem, at, step, w, v).Ok?
    requires pos + width <= at || at + w <= pos
    ensures GetIntAt(PutIntAt(mem, at, step, w, v).value.mem, pos, width) == GetIntAt(mem, pos, width)
  {
    OverwriteElsewhere(mem, at, ToBE(Unsigned(v, w), w), pos, pos + width);
  }

  /** Two integers put one after the other read back in order when the put advances by the
      integer's own width. */
  lemma SequentialInts(mem: seq<Byte>, pos: int, width: nat, v1: int, v2: int, s1: Stored, s2: Stored)
    requires Region(mem) && IsInt32(pos) && 0 < width <= 8
    requires -Half(width) <= v1 < Half(width) && -Half(width) <= v2 < Half(width)
    requires PutIntAt(mem, pos, width, width, v1) == Ok(s1)
    requires PutIntAt(s1.mem, s1.pos, width, width, v2) == Ok(s2)
    ensures s1.pos == pos + width && s2.pos == s1.pos + width
    ensures GetIntAt(s2.mem, pos, width) == Ok(Step(v1, s1.pos))
    ensures GetIntAt(s2.mem, s1.pos, width) == Ok(Step(v2, s2.pos))
  {
    PutThenGet(mem, pos, width, v1, s1);
    PutThenGet(s1.mem, s1.pos, width, v2, s2);
    GetIntUnaffected(s1.mem, pos, width, s1.pos, width, width, v2);
  }

  /** A put that advances by the width is read back by a get at the same position. */
  lemma PutThenGet(mem: seq<Byte>, pos: int, width: nat, v: int, s: Stored)
    requires Region(mem) && IsInt32(pos) && 0 < width <= 8 && -Half(width) <= v < Half(width)
    requires PutIntAt(mem, pos, width, width, v) == Ok(s)
    ensures s.pos == pos + width && Region(s.mem) && |s.mem| == |mem|
    ensures GetIntAt(s.mem, pos, width) == Ok(Step(v, s.pos))
  {
    IntRoundTrip(mem, pos, width, width, v);
  }

  /** As written, `PutInt32` and `PutInt64` advance by 24 bytes while the getters advance by the
      width: the second of two consecutive puts is not where the second get reads. */
  lemma PutInt32AsWrittenMisaligns(mem: seq<Byte>, pos: int, v1: int, v2: int, s1: Stored, s2: Stored)
    requires Region(mem) && IsInt32(pos) && IsInt32(v1) && IsInt32(v2)
    requires PutIntAt(mem, pos, 24, 4, v1) == Ok(s1)
    requires PutIntAt(s1.mem, s1.pos, 24, 4, v2) == Ok(s2)
    ensures GetIntAt(s2.mem, pos, 4) == Ok(Step(v1, pos + 4))
    ensures GetIntAt(s2.mem, pos + 4, 4) == GetIntAt(mem, pos + 4, 4)
  {
    IntWidths();
    IntRoundTrip(mem, pos, 24, 4, v1);
    GetIntUnaffected(s1.mem, pos, 4, s1.pos, 24, 4, v2);
    GetIntUnaffected(mem, pos + 4, 4, pos, 24, 4, v1);
    GetIntUnaffected(s1.mem, pos + 4, 4, s1.pos, 24, 4, v2);
  }

  lemma IntWidths()
    ensures Half(4) == 0x8000_0000 && Half(8) == 0x8000_0000_0000_0000
  {
  }

  /** On a zeroed region, putting 1 then 2 and getting twice yields 1 then 0. */
  lemma PutInt32AsWrittenExample()
    ensures
      var mem := Zeros(48);
      var s1 := Stored(Overwrite(mem, 0, ToBE(1, 4)), 24);
      var s2 := Stored(Overwrite(s1.mem, 24, ToBE(2, 4)), 48);
      && PutIntAt(mem, 0, 24, 4, 1) == Ok(s1)
      && PutIntAt(s1.mem, s1.pos, 24, 4, 2) == Ok(s2)
      && GetIntAt(s2.mem, 0, 4) == Ok(Step(1, 4))
      && GetIntAt(s2.mem, 4, 4) == Ok(Step(0, 8))
  {
    IntWidths();
    var mem := Zeros(48);
    var s1 := Stored(Overwrite(mem, 0, ToBE(1, 4)), 24);
    var s2 := Stored(Overwrite(s1.mem, 24, ToBE(2, 4)), 48);
    PutInt32AsWrittenMisaligns(mem, 0, 1, 2, s1, s2);
    assert mem[4..8] == Zeros(4);
    FromBEOfZeros(4);
  }

  // ---------------------------------------------------------------------------------------
  // The buffer object

  class MappedBuf {
    /** The mapped region. */
    const data: array<Byte>
    /** `len`: the length of the region as an `int32`. */
    const len: int
    /** The cursor. */
    var pos: int

    predicate Valid()
      reads this
    {
      len == data.Length && data.Length <= MaxInt32 && IsInt32(pos)
    }

    /** `NewMappedBuf(fileName, length)`: the file is cut or zero-extended to `length` bytes
        and mapped; the cursor starts at 0. */
    constructor (content: seq<Byte>, length: nat)
      requires length <= MaxInt32
      ensures Valid() && fresh(data) && pos == 0 && len == length
      ensures data[..] == if |content| >= length then content[..length] else content + Zeros(length - |content|)
    {
      data := new Byte[length](i requires 0 <= i < length => if i < |content| then content[i] else 0);
      len := length;
      pos := 0;
      new;
      ghost var want := if |content| >= length then content[..length] else content + Zeros(length - |content|);
      assert forall i :: 0 <= i < length ==> data[..][i] == want[i];
    }

    /** `SetPos(pos)`. */
    method SetPos(p: int)
      requires Valid() && IsInt32(p)
      modifies this
      ensures Valid() && pos == p
    {
      pos := p;
    }

    method GetByte() returns (r: Result<Byte, Fault>)
      requires Valid()
      modifies this
      ensures Valid()
      ensures match GetByteAt(data[..], old(pos))
        case Ok(s) => r == Ok(s.value) && pos == s.pos
        case Err(f) => r == Err(f) && pos == old(pos)
    {
      var e := Check(data[..], pos, 1);
      if e.Some? {
        return Err(Failed(e.value));
      }
      if !(0 <= pos < data.Length) {
        return Err(Panic);
      }
      r := Ok(data[pos]);
      pos := Wrap32(pos + 1);
    }

    /** `GetInt16` (`width` 2), `GetInt32` (4) and `GetInt64` (8). */
    method GetInt(width: nat) returns (r: Result<int, Fault>)
      requires Valid() && (width == 2 || width == 4 || width == 8)
      modifies this
      ensures Valid()
      ensures match GetIntAt(data[..], old(pos), width)
        case Ok(s) => r == Ok(s.value) && pos == s.pos
        case Err(f) => r == Err(f) && pos == old(pos)
    {
      var bytes := TakeBytes(width);
      if bytes.Err? {
        return Err(bytes.error);
      }
      r := Ok(Signed(FromBE(bytes.value), width));
    }

    /** `GetBytes(n)`. */
    method GetBytes(n: int) returns (r: Result<seq<Byte>, Fault>)
      requires Valid() && IsInt32(n)
      modifies this
      ensures Valid()
      ensures match GetBytesAt(data[..], old(pos), n)
        case Ok(s) => r == Ok(s.value) && pos == s.pos
        case Err(f) => r == Err(f) && pos == old(pos)
    {
      r := TakeBytes(n);
    }

    /** `check(n)`, the slice `data[pos:pos+n]` and the advance of the cursor past it. */
    method TakeBytes(n: int) returns (r: Result<seq<Byte>, Fault>)
      requires Valid() && IsInt32(n)
      modifies this
      ensures Valid() && r == Take(data[..], old(pos), n)
      ensures pos == if r.Ok? then old(pos) + n else old(pos)
    {
      var e := Check(data[..], pos, n);
      if e.Some? {
        return Err(Failed(e.value));
      }
      var hi := Wrap32(pos + n);
      if !(0 <= pos <= hi <= data.Length) {
        return Err(Panic);
      }
      r := Ok(data[pos..hi]);
      pos := hi;
    }

    /** `GetString`. */
    method GetString() returns (r: Result<seq<Byte>, Fault>)
      requires Valid()
      modifies this
      ensures Valid()
      ensures match GetStringAt(data[..], old(pos))
        case Ok(s) => r == Ok(s.value) && pos == s.pos
        case Err(f) => r == Err(f) && pos == old(pos)
    {
      var e := Check(data[..], pos, 1);
      if e.Some? {
        return Err(Failed(e.value));
      }
      if !(0 <= pos < data.Length) {
        return Err(Panic);
      }
      var n := data[pos] as int;
      if n > 127 {
        return Err(Failed(BadStringLength));
      }
      e := Check(data[..], pos, n + 1);
      if e.Some? {
        return Err(Failed(e.value));
      }
      var lo := Wrap32(pos + 1);
      var hi := Wrap32(pos + (n + 1));
      if !(0 <= lo <= hi <= data.Length) {
        return Err(Panic);
      }
      r := Ok(data[lo..hi]);
      pos := hi;
    }

    /** `copy(data[at:], src)` when all of `src` fits. */
    method Store(at: int, src: seq<Byte>)
      requires 0 <= at && at + |src| <= data.Length
      modifies data
      ensures data[..] == Overwrite(old(data[..]), at, src)
    {
      forall i | 0 <= i < |src| {
        data[at + i] := src[i];
      }
      assert data[..] == Overwrite(old(data[..]), at, src);
    }

    /** `data[at] = byte(n)` followed by `copy(data[at+1:], src)`. */
    method StoreString(at: int, lengthByte: Byte, src: seq<Byte>)
      requires 0 <= at < data.Length && at + 1 + |src| <= data.Length
      modifies data
      ensures data[..] == Overwrite(old(data[..])[at := lengthByte], at + 1, src)
    {
      data[at] := lengthByte;
      Store(at + 1, src);
    }

    method PutByte(v: Byte) returns (err: Option<Fault>)
      requires Valid()
      modifies this, data
      ensures Valid()
      ensures match PutByteAt(old(data[..]), old(pos), v)
        case Ok(s) => err.None? && data[..] == s.mem && pos == s.pos
        case Err(f) => err == Some(f) && data[..] == old(data[..]) && pos == old(pos)
    {
      var e := Check(data[..], pos, 1);
      if e.Some? {
        return Some(Failed(e.value));
      }
      if !(0 <= pos < data.Length) {
        return Some(Panic);
      }
      data[pos] := v;
      pos := Wrap32(pos + 1);
      return None;
    }

    /** `PutInt16` (`width` 2), `PutInt32` (4) and `PutInt64` (8), as written: the last two
        check and advance `PutStep(width)` = 24 bytes. */
    method PutInt(width: nat, v: int) returns (err: Option<Fault>)
      requires Valid() && (width == 2 || width == 4 || width == 8) && -Half(width) <= v < Half(width)
      modifies this, data
      ensures Valid()
      ensures match PutIntAt(old(data[..]), old(pos), PutStep(width), width, v)
        case Ok(s) => err.None? && data[..] == s.mem && pos == s.pos
        case Err(f) => err == Some(f) && data[..] == old(data[..]) && pos == old(pos)
    {
      var n := PutStep(width);
      var e := Check(data[..], pos, n);
      if e.Some? {
        return Some(Failed(e.value));
      }
      var hi := Wrap32(pos + n);
      if !(0 <= pos <= hi <= data.Length) {
        return Some(Panic);
      }
      Store(pos, ToBE(Unsigned(v, width), width));
      pos := hi;
      return None;
    }

    method PutBytes(value: seq<Byte>) returns (err: Option<Fault>)
      requires Valid()
      modifies this, data
      ensures Valid()
      ensures match PutBytesAt(old(data[..]), old(pos), value)
        case Ok(s) => err.None? && data[..] == s.mem && pos == s.pos
        case Err(f) => err == Some(f) && data[..] == old(data[..]) && pos == old(pos)
    {
      var n := Wrap32(|value|);
      var e := Check(data[..], pos, n);
      if e.Some? {
        return Some(Failed(e.value));
      }
      if !(0 <= pos <= data.Length) {
        return Some(Panic);
      }
      var k := if |value| <= data.Length - pos then |value| else data.Length - pos;
      Store(pos, value[..k]);
      pos := Wrap32(pos + n);
      return None;
    }

    method PutString(value: seq<Byte>) returns (err: Option<Fault>)
      requires Valid()
      modifies this, data
      ensures Valid()
      ensures match PutStringAt(old(data[..]), old(pos), value)
        case Ok(s) => err.None? && data[..] == s.mem && pos == s.pos
        case Err(f) => err == Some(f) && data[..] == old(data[..]) && pos == old(pos)
    {
      var n := Wrap32(|value|);
      if n > 127 {
        return Some(Failed(StringTooLong));
      }
      var e := Check(data[..], pos, Wrap32(n + 1));
      if e.Some? {
        return Some(Failed(e.value));
      }
      if !(0 <= pos < data.Length) {
        return Some(Panic);
      }
      var k := if |value| <= data.Length - (pos + 1) then |value| else data.Length - (pos + 1);
      StoreString(pos, (n % 256) as Byte, value[..k]);
      pos := Wrap32(pos + Wrap32(n + 1));
      return None;
    }
  }
}
