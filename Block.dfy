/** One segment file ("block") of a disk queue: frames `[8-byte offset][4-byte length][payload]`
    appended at the block's end offset, which the queue's index keeps. */
module DiskBlock {
  import opened Wrappers
  import opened Bytes
  import opened Text

  /** The exceptions `RandomAccessFile` and array allocation raise on the paths modelled. */
  datatype IoError = NegativeSeekOffset | EndOfFile | NegativeArraySize

  const HeaderSize: nat := 12

  /** What `write` lays down at offset `at`: the offset as a long, the length as an int, the bytes. */
  function Frame(at: int, data: seq<Byte>): (f: seq<Byte>)
    requires IsInt32(at) && |data| <= MaxInt32
    ensures |f| == HeaderSize + |data|
    ensures Signed(FromBE(f[..8]), 8) == at
    ensures FromBE(f[8..HeaderSize]) == |data|
    ensures f[HeaderSize..] == data
  {
    assert MinInt32 >= -Half(8) && MaxInt32 < Half(8) by { assert Pow256(8) == 0x1_0000_0000_0000_0000; }
    assert MaxInt32 < Pow256(4) by { assert Pow256(4) == 0x1_0000_0000; }
    var offset := ToBE(Unsigned(at, 8), 8);
    var length := ToBE(|data|, 4);
    var f := offset + length + data;
    assert f[..8] == offset && f[8..HeaderSize] == length;
    SignedRoundTrip(at, 8);
    FromBEOfToBE(|data|, 4);
    f
  }

  /** The file after writing `chunk` at `at`: bytes before `at` are kept (a gap past the end of
      the file reads as zeros), the chunk overwrites, bytes after it are kept. */
  function WriteAt(file: seq<Byte>, at: nat, chunk: seq<Byte>): (r: seq<Byte>)
    ensures |r| == if at + |chunk| < |file| then |file| else at + |chunk|
    ensures r[at..at + |chunk|] == chunk
    ensures at + |chunk| < |file| ==> r[at + |chunk|..] == file[at + |chunk|..]
  {
    var pre := if at <= |file| then file[..at] else file + Zeros(at - |file|);
    var post := if at + |chunk| < |file| then file[at + |chunk|..] else [];
    assert (pre + chunk + post)[..at] == pre;
    assert (pre + chunk + post)[at..at + |chunk|] == chunk;
    pre + chunk + post
  }

  lemma WriteAtKeepsBefore(file: seq<Byte>, at: nat, chunk: seq<Byte>)
    ensures forall i :: 0 <= i < at && i < |file| ==> WriteAt(file, at, chunk)[i] == file[i]
  {
    var n := if at <= |file| then at else |file|;
    assert WriteAt(file, at, chunk)[..n] == file[..n];
  }

  /** `read(pos)`: seek, skip the stored offset, read the length, then up to that many bytes;
      bytes missing at the end of the file stay zero. */
  function ReadFrame(file: seq<Byte>, pos: int): (r: Result<seq<Byte>, IoError>)
    ensures r == Err(NegativeSeekOffset) <==> pos < 0
    ensures r == Err(EndOfFile) <==> 0 <= pos && |file| < pos + HeaderSize
    ensures 0 <= pos && pos + HeaderSize <= |file| ==>
      (r.Ok? <==> Signed(FromBE(file[pos + 8..pos + HeaderSize]), 4) >= 0)
    ensures r.Ok? ==> pos + HeaderSize <= |file| && |r.value| == Signed(FromBE(file[pos + 8..pos + HeaderSize]), 4)
    ensures r.Ok? ==>
      var avail := if |r.value| <= |file| - (pos + HeaderSize) then |r.value| else |file| - (pos + HeaderSize);
      && r.value[..avail] == file[pos + HeaderSize..pos + HeaderSize + avail]
      && forall i :: avail <= i < |r.value| ==> r.value[i] == 0
  {
    if pos < 0 then Err(NegativeSeekOffset)
    else if |file| < pos + HeaderSize then Err(EndOfFile)
    else
      var size := Signed(FromBE(file[pos + 8..pos + HeaderSize]), 4);
      if size < 0 then Err(NegativeArraySize)
      else
        var avail := if pos + HeaderSize + size <= |file| then size else |file| - (pos + HeaderSize);
        Ok(file[pos + HeaderSize..pos + HeaderSize + avail] + Zeros(size - avail))
  }

  /** The size constants of the frame header, spelled out. */
  lemma FrameWidths()
    ensures Pow256(4) == 0x1_0000_0000 && Pow256(8) == 0x1_0000_0000_0000_0000
    ensures Half(4) == 0x8000_0000
  {
  }

  /** Round trip: the frame written at `at` reads back as exactly the payload. */
  lemma ReadOfFrame(file: seq<Byte>, at: nat, data: seq<Byte>)
    requires IsInt32(at) && |data| <= MaxInt32
    ensures ReadFrame(WriteAt(file, at, Frame(at, data)), at) == Ok(data)
  {
    var f := Frame(at, data);
    var g := WriteAt(file, at, f);
    FrameWidths();
    assert g[at..at + |f|] == f;
    assert g[at + 8..at + HeaderSize] == f[8..HeaderSize] == ToBE(|data|, 4);
    FromBEOfToBE(|data|, 4);
    assert Signed(FromBE(g[at + 8..at + HeaderSize]), 4) == |data|;
    assert g[at + HeaderSize..at + HeaderSize + |data|] == f[HeaderSize..] == data;
    assert at + HeaderSize + |data| <= |g|;
    assert g[at + HeaderSize..at + HeaderSize + |data|] + Zeros(0) == data;
  }

  /** The frame at `pos` is wholly in `file` and ends by `limit`. */
  predicate FrameWithin(file: seq<Byte>, pos: nat, limit: int)
  {
    pos + HeaderSize <= |file| &&
    var size := Signed(FromBE(file[pos + 8..pos + HeaderSize]), 4);
    0 <= size && pos + HeaderSize + size <= limit && pos + HeaderSize + size <= |file|
  }

  /** A frame that ends by `at` is not disturbed by a write at `at`. */
  lemma ReadUnaffectedByLaterWrite(file: seq<Byte>, pos: nat, limit: int, at: nat, chunk: seq<Byte>)
    requires FrameWithin(file, pos, limit) && limit <= at
    ensures ReadFrame(WriteAt(file, at, chunk), pos) == ReadFrame(file, pos)
    ensures FrameWithin(WriteAt(file, at, chunk), pos, limit)
  {
    var g := WriteAt(file, at, chunk);
    WriteAtKeepsBefore(file, at, chunk);
    assert g[pos + 8..pos + HeaderSize] == file[pos + 8..pos + HeaderSize];
    var size := Signed(FromBE(file[pos + 8..pos + HeaderSize]), 4);
    assert g[pos + HeaderSize..pos + HeaderSize + size] == file[pos + HeaderSize..pos + HeaderSize + size];
  }

  /** The frame written at `at` lies wholly before its own end. */
  lemma FrameWithinItsEnd(file: seq<Byte>, at: nat, data: seq<Byte>)
    requires IsInt32(at) && |data| <= MaxInt32
    ensures FrameWithin(WriteAt(file, at, Frame(at, data)), at, at + HeaderSize + |data|)
  {
    ReadOfFrame(file, at, data);
  }

  /** The frames `ws` (ending at `end`, which the index stores truncated to an int as
      `endOffset`) all read back from `file`. */
  ghost predicate Logs(file: seq<Byte>, endOffset: int, ws: seq<Written>, end: int)
  {
    && IsInt32(endOffset)
    && endOffset == Wrap32(end)
    && Readable(file, ws)
    && Contiguous(ws)
    && (ws != [] ==> FrameEnd(ws[|ws| - 1]) == end)
  }

  /** The frames known after a write at `at`: appended when it continues them, else alone. */
  ghost function Logged(ws: seq<Written>, end: int, at: nat, data: seq<Byte>): seq<Written>
  {
    if at == end then ws + [Written(at, data)] else [Written(at, data)]
  }

  lemma WriteKeepsLogs(file: seq<Byte>, ws: seq<Written>, end: int, at: nat, data: seq<Byte>)
    requires Logs(file, at, ws, end) && |data| <= MaxInt32
    ensures Logs(WriteAt(file, at, Frame(at, data)), Wrap32(at + HeaderSize + |data|),
                 Logged(ws, end, at, data), at + HeaderSize + |data|)
  {
    var w := Written(at, data);
    if at == end {
      AppendKeepsReadable(file, ws, at, data);
      assert (ws + [w])[|ws|] == w;
    } else {
      AppendKeepsReadable(file, [], at, data);
      assert [] + [w] == [w];
    }
  }

  /** `Block(index, file, blockNumber)` rejects a block number outside the index's range with
      an `IllegalArgumentException` carrying one of these messages. */
  function BlockNumberError(blockNumber: int, blockCount: int): (e: Option<string>)
    ensures e.None? <==> 0 <= blockNumber < blockCount
    ensures blockNumber < 0 ==> e == Some("blockNumber should>=0 but was " + IntDecimal(blockNumber))
  {
    if blockNumber < 0 then Some("blockNumber should>=0 but was " + IntDecimal(blockNumber))
    else if blockNumber >= blockCount then
      Some("blockNumber should<" + IntDecimal(blockCount) + " but was " + IntDecimal(blockNumber))
    else None
  }

  /** A frame written through this object, with the offset it was written at. */
  datatype Written = Written(at: nat, payload: seq<Byte>)

  function FrameEnd(w: Written): nat { w.at + HeaderSize + |w.payload| }

  /** Every frame of `ws` reads back from `file` and lies before its own end. */
  ghost predicate Readable(file: seq<Byte>, ws: seq<Written>)
  {
    forall i :: 0 <= i < |ws| ==>
      ReadFrame(file, ws[i].at) == Ok(ws[i].payload) && FrameWithin(file, ws[i].at, FrameEnd(ws[i]))
  }

  /** Each frame of `ws` starts where the previous one ends. */
  ghost predicate Contiguous(ws: seq<Written>)
  {
    forall i :: 0 <= i < |ws| - 1 ==> FrameEnd(ws[i]) == ws[i + 1].at
  }

  lemma EndsBy(ws: seq<Written>, i: int)
    requires Contiguous(ws) && 0 <= i < |ws|
    ensures FrameEnd(ws[i]) <= FrameEnd(ws[|ws| - 1])
    ensures ws[i].at <= ws[|ws| - 1].at
  {
    var k := i;
    while k < |ws| - 1
      invariant i <= k <= |ws| - 1
      invariant FrameEnd(ws[i]) <= FrameEnd(ws[k]) && ws[i].at <= ws[k].at
    {
      k := k + 1;
    }
  }

  /** Appending a frame at the end of the contiguous frames keeps all of them readable. */
  lemma AppendKeepsReadable(file: seq<Byte>, ws: seq<Written>, at: nat, data: seq<Byte>)
    requires IsInt32(at) && |data| <= MaxInt32
    requires Readable(file, ws) && Contiguous(ws)
    requires ws != [] ==> FrameEnd(ws[|ws| - 1]) == at
    ensures Readable(WriteAt(file, at, Frame(at, data)), ws + [Written(at, data)])
    ensures Contiguous(ws + [Written(at, data)])
  {
    var f := Frame(at, data);
    var g := WriteAt(file, at, f);
    var ws' := ws + [Written(at, data)];
    forall i | 0 <= i < |ws'|
      ensures ReadFrame(g, ws'[i].at) == Ok(ws'[i].payload) && FrameWithin(g, ws'[i].at, FrameEnd(ws'[i]))
    {
      if i < |ws| {
        assert ws'[i] == ws[i];
        EndsBy(ws, i);
        ReadUnaffectedByLaterWrite(file, ws[i].at, FrameEnd(ws[i]), at, f);
      } else {
        assert ws'[i] == Written(at, data);
        ReadOfFrame(file, at, data);
        FrameWithinItsEnd(file, at, data);
      }
    }
    ContiguousSnoc(ws, Written(at, data));
  }

  /** A frame that starts where the last one ends continues contiguous frames. */
  lemma ContiguousSnoc(ws: seq<Written>, w: Written)
    requires Contiguous(ws) && (ws != [] ==> FrameEnd(ws[|ws| - 1]) == w.at)
    ensures Contiguous(ws + [w])
  {
    var ws' := ws + [w];
    forall i | 0 <= i < |ws'| - 1
      ensures FrameEnd(ws'[i]) == ws'[i + 1].at
    {
      assert ws'[i] == ws[i];
      if i + 1 < |ws| {
        assert ws'[i + 1] == ws[i + 1];
      }
    }
  }

  class Block {
    const blockNumber: int
    /** `Index.BlockMaxSize`. */
    const maxSize: int
    /** The contents of the block's `RandomAccessFile`. */
    var file: seq<Byte>
    /** The end offset the index records for this block. */
    var endOffset: int

    /** Frames written since the block was opened, oldest first, and where the last one ends
        before it is truncated to a Java int. */
    ghost var written: seq<Written>
    ghost var end: int

    ghost predicate Valid()
      reads this
    {
      Logs(file, endOffset, written, end)
    }

    /** The frames written through this object end where the index says the block ends. */
    ghost predicate Intact()
      reads this
    {
      endOffset == end
    }

    constructor (blockNumber: int, blockCount: int, maxSize: int, file: seq<Byte>, endOffset: int)
      requires BlockNumberError(blockNumber, blockCount).None?
      requires IsInt32(endOffset)
      ensures Valid() && Intact()
      ensures this.blockNumber == blockNumber && this.maxSize == maxSize
      ensures this.file == file && this.endOffset == endOffset && written == []
    {
      this.blockNumber := blockNumber;
      this.maxSize := maxSize;
      this.file := file;
      this.endOffset := endOffset;
      written := [];
      end := endOffset;
    }

    /** `isFull()`: the end offset has reached `BlockMaxSize`. */
    predicate IsFull()
      reads this
    {
      endOffset >= maxSize
    }

    /** `isEndOfBlock(offset)`: no data at or after `offset`. */
    predicate IsEndOfBlock(offset: int)
      reads this
    {
      offset >= endOffset
    }

    /** No frame written through this object starts at the end of the block. */
    lemma WrittenFramesPrecedeEnd(i: int)
      requires Valid() && Intact() && 0 <= i < |written|
      ensures !IsEndOfBlock(written[i].at)
      ensures IsEndOfBlock(FrameEnd(written[|written| - 1]))
    {
      EndsBy(written, i);
    }

    /** `write(data)`. */
    method Write(data: seq<Byte>) returns (r: Result<int, IoError>)
      requires Valid() && |data| <= MaxInt32
      modifies this
      ensures Valid()
      ensures old(IsFull()) ==> r == Ok(0) && file == old(file) && endOffset == old(endOffset)
      ensures !old(IsFull()) && old(endOffset) < 0 ==>
        r == Err(NegativeSeekOffset) && file == old(file) && endOffset == old(endOffset)
      ensures !old(IsFull()) && old(endOffset) >= 0 ==>
        && r == Ok(|data|)
        && file == WriteAt(old(file), old(endOffset), Frame(old(endOffset), data))
        && endOffset == Wrap32(old(endOffset) + HeaderSize + |data|)
      ensures !old(IsFull()) && old(endOffset) >= 0 ==>
        written == Logged(old(written), old(end), old(endOffset), data)
      ensures old(IsFull()) || old(endOffset) < 0 ==> written == old(written) && end == old(end)
    {
      var at := endOffset;
      if at >= maxSize {
        return Ok(0);
      }
      if at < 0 {
        return Err(NegativeSeekOffset);
      }
      Append(data);
      r := Ok(|data|);
    }

    /** The successful path of `write`: the frame goes at the end offset, which moves past it. */
    method Append(data: seq<Byte>)
      requires Valid() && |data| <= MaxInt32 && 0 <= endOffset
      modifies this
      ensures Valid()
      ensures file == WriteAt(old(file), old(endOffset), Frame(old(endOffset), data))
      ensures endOffset == Wrap32(old(endOffset) + HeaderSize + |data|)
      ensures written == Logged(old(written), old(end), old(endOffset), data)
    {
      var at := endOffset;
      var newFile := WriteAt(file, at, Frame(at, data));
      var newEndOffset := Wrap32(at + HeaderSize + |data|);
      ghost var newWritten := Logged(written, end, at, data);
      ghost var newEnd := at + HeaderSize + |data|;
      WriteKeepsLogs(file, written, end, at, data);
      file, endOffset, written, end := newFile, newEndOffset, newWritten, newEnd;
    }

    /** `read(pos)`. */
    method Read(pos: int) returns (r: Result<seq<Byte>, IoError>)
      requires Valid()
      ensures r == ReadFrame(file, pos)
    {
      if pos < 0 {
        return Err(NegativeSeekOffset);
      }
      if |file| < pos + 8 {
        return Err(EndOfFile);
      }
      if |file| < pos + HeaderSize {
        return Err(EndOfFile);
      }
      var size := Signed(FromBE(file[pos + 8..pos + HeaderSize]), 4);
      if size < 0 {
        return Err(NegativeArraySize);
      }
      var n := if pos + HeaderSize + size <= |file| then size else |file| - (pos + HeaderSize);
      r := Ok(file[pos + HeaderSize..pos + HeaderSize + n] + Zeros(size - n));
    }
  }
}
