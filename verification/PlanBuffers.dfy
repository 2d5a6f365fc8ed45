/** The sinks an envelope item is re-encoded through, and the segmented source a plan payload is read from. */
module PlanBuffers {
  import opened Bytes
  import opened PlanWire

  lemma {:induction false} FlatAppend(pieces: seq<seq<byte>>, last: seq<byte>)
    ensures Flat(pieces + [last]) == Flat(pieces) + last
    decreases |pieces|
  {
    if pieces == [] {
      assert [last][1..] == [];
      assert [] + last == last + [];
    } else {
      assert (pieces + [last])[1..] == pieces[1..] + [last];
      FlatAppend(pieces[1..], last);
      Joined(pieces[0], Flat(pieces[1..]), last);
    }
  }

  lemma FlatPrefix(pieces: seq<seq<byte>>, i: nat)
    requires i < |pieces|
    ensures Flat(pieces[..i + 1]) == Flat(pieces[..i]) + pieces[i]
  {
    assert pieces[..i + 1] == pieces[..i] + [pieces[i]];
    FlatAppend(pieces[..i], pieces[i]);
  }

  // ---- The sinks ----------------------------------------------------------------------------

  /** `CountingBufMut`: how long an item will be. */
  method CountPieces(pieces: seq<seq<byte>>) returns (len: nat)
    ensures len == |Flat(pieces)|
  {
    len := 0;
    for i := 0 to |pieces|
      invariant len == |Flat(pieces[..i])|
    {
      FlatPrefix(pieces, i);
      len := len + |pieces[i]|;
    }
    assert pieces[..|pieces|] == pieces;
  }

  /** How much of a stream of `observed` bytes falls into a window of `room` bytes after the first `skip`. */
  function Overlap(observed: nat, skip: nat, room: nat): nat {
    if observed <= skip then 0 else if observed - skip < room then observed - skip else room
  }

  /** `OverlapBufMut`: of everything put into it, only the window of bytes from `skip` on lands in the output. */
  class OverlapSink {
    const out: array<byte>
    const start: nat            // the output slice is out[start..]
    const skip: nat
    var observed: nat
    var written: nat
    ghost var stream: seq<byte> // everything put so far

    ghost predicate Valid()
      reads this, out
    {
      && start <= out.Length && observed == |stream| && written == Overlap(observed, skip, out.Length - start)
      && out[..][start..start + written] == Window(stream, skip, written)
    }

    constructor (out: array<byte>, start: nat, skip: nat)
      requires start <= out.Length
      ensures Valid() && stream == [] && this.out == out && this.start == start && this.skip == skip
    {
      this.out, this.start, this.skip := out, start, skip;
      observed, written, stream := 0, 0, [];
    }

    /** `observe_bytes`. */
    method Observe(src: seq<byte>)
      requires Valid()
      modifies this`observed, this`written, this`stream, out
      ensures Valid() && stream == old(stream) + src && out[..][..start] == old(out[..])[..start]
    {
      hide Window, Overlap;
      var first := observed;
      var last := first + |src|;
      var windowEnd := skip + (out.Length - start);
      ghost var w := written;
      OverlapWithin(first, skip, out.Length - start);
      WindowSame(stream, src, skip, w);
      ghost var was := stream;
      observed, stream := last, stream + src;
      if last <= skip || first >= windowEnd {
        OverlapKeeps(first, |src|, skip, out.Length - start);
        return;
      }
      var copyStart := if skip > first then skip - first else 0;
      var copyEnd := if |src| < windowEnd - first then |src| else windowEnd - first;
      OverlapGains(first, |src|, skip, out.Length - start, copyStart, copyEnd);
      if copyStart >= copyEnd { return; }
      var dst := (if first > skip then first else skip) - skip;
      var piece := src[copyStart..copyEnd];
      WindowNext(was, src, skip, w, copyStart, copyEnd);
      Place(start + dst, piece);
    }

    method Place(at: nat, piece: seq<byte>)
      requires at == start + written && at + |piece| <= out.Length
      modifies this`written, out
      ensures written == old(written) + |piece|
              && out[..][start..start + written] == old(out[..][start..start + written]) + piece
      ensures out[..][..start] == old(out[..])[..start]
    {
      Copy(out, at, piece);
      Landed(old(out[..]), out[..], start, at, at + |piece|, piece);
      written := written + |piece|;
    }
  }

  lemma OverlapWithin(observed: nat, skip: nat, room: nat)
    ensures Overlap(observed, skip, room) <= room
            && (Overlap(observed, skip, room) > 0 ==> skip + Overlap(observed, skip, room) <= observed)
  {
  }

  lemma OverlapKeeps(first: nat, len: nat, skip: nat, room: nat)
    requires first + len <= skip || first >= skip + room
    ensures Overlap(first + len, skip, room) == Overlap(first, skip, room)
  {
  }

  /** What `observe_bytes` copies is what the window gains. */
  lemma OverlapGains(first: nat, len: nat, skip: nat, room: nat, lo: nat, hi: nat)
    requires skip < first + len && first < skip + room
    requires lo == (if skip > first then skip - first else 0)
             && hi == (if len < skip + room - first then len else skip + room - first)
    ensures lo <= hi <= len && first + lo == skip + Overlap(first, skip, room)
            && Overlap(first + len, skip, room) == Overlap(first, skip, room) + (hi - lo)
    ensures Overlap(first, skip, room) == (if first > skip then first else skip) - skip == if first <= skip then 0
            else first - skip
  {
  }

  lemma Landed(before: seq<byte>, after: seq<byte>, start: nat, mid: nat, end: nat, piece: seq<byte>)
    requires start <= mid <= end <= |before| && end - mid == |piece|
             && after == before[..mid] + piece + before[mid + |piece|..]
    ensures |after| == |before| && after[start..end] == before[start..mid] + piece && after[..start] == before[..start]
  {
  }

  lemma WindowSame(stream: seq<byte>, src: seq<byte>, skip: nat, n: nat)
    requires n > 0 ==> skip + n <= |stream|
    ensures Window(stream + src, skip, n) == Window(stream, skip, n)
  {
  }

  lemma WindowStarts(stream: seq<byte>, src: seq<byte>, skip: nat, len: nat)
    requires |stream| <= skip && skip + len <= |stream| + |src|
    ensures (stream + src)[skip..skip + len] == src[skip - |stream|..skip - |stream| + len]
  {
  }

  lemma WindowGrows(stream: seq<byte>, src: seq<byte>, skip: nat, len: nat)
    requires skip <= |stream| && len <= |src|
    ensures (stream + src)[skip..|stream| + len] == stream[skip..] + src[..len]
  {
  }

  /** The bytes that `observe_bytes` lets through are the next ones of the window. */
  lemma WindowNext(stream: seq<byte>, src: seq<byte>, skip: nat, n: nat, lo: nat, hi: nat)
    requires |stream| + lo == skip + n && lo < hi <= |src| && n == (if |stream| <= skip then 0 else |stream| - skip)
    ensures Window(stream + src, skip, n + (hi - lo)) == Window(stream, skip, n) + src[lo..hi]
  {
    if n == 0 {
      WindowStarts(stream, src, skip, hi - lo);
      assert Window(stream, skip, n) == [];
    } else {
      WindowGrows(stream, src, skip, hi - lo);
      assert stream[skip..] == stream[skip..skip + n];
    }
  }

  function Window(stream: seq<byte>, skip: nat, n: nat): (w: seq<byte>)
    requires n > 0 ==> skip + n <= |stream|
    ensures |w| == n
  {
    if n == 0 then [] else stream[skip..skip + n]
  }

  method Copy(out: array<byte>, at: nat, bytes: seq<byte>)
    requires at + |bytes| <= out.Length
    modifies out
    ensures out[..] == old(out[..])[..at] + bytes + old(out[..])[at + |bytes|..]
  {
    for i := 0 to |bytes|
      invariant out[..] == old(out[..])[..at] + bytes[..i] + old(out[..])[at + i..]
    {
      out[at + i] := bytes[i];
    }
  }

  /**
   * `encode_item_range`: however an item is cut into pieces, the output gets its bytes from `offset` on, as many as
   * fit.
   */
  method EncodeRange(pieces: seq<seq<byte>>, offset: nat, out: array<byte>, start: nat) returns (copied: nat)
    requires start <= out.Length && offset <= |Flat(pieces)|
    modifies out
    ensures copied == Overlap(|Flat(pieces)|, offset, out.Length - start) && start + copied <= out.Length
    ensures out[start..start + copied] == Flat(pieces)[offset..offset + copied] && out[..start] == old(out[..start])
  {
    var sink := new OverlapSink(out, start, offset);
    for i := 0 to |pieces|
      invariant sink.Valid() && sink.stream == Flat(pieces[..i]) && out[..][..start] == old(out[..])[..start]
    {
      FlatPrefix(pieces, i);
      sink.Observe(pieces[i]);
    }
    assert pieces[..|pieces|] == pieces;
    copied := sink.written;
  }

  // ---- The source ----------------------------------------------------------------------------

  ghost predicate NoneEmpty(segments: seq<seq<byte>>) { forall i :: 0 <= i < |segments| ==> segments[i] != [] }

  /** What is left of the segments from a position in one of them. */
  ghost function LeftOf(segments: seq<seq<byte>>, i: nat, offset: nat): seq<byte>
    requires i <= |segments| && (i < |segments| ==> offset <= |segments[i]|)
  {
    if i == |segments| then [] else segments[i][offset..] + Flat(segments[i + 1..])
  }

  /** `SegmentedSource`: the payload's segments read as one run of bytes. */
  class SegmentedSource {
    const segments: seq<seq<byte>>
    var index: nat
    var offset: nat
    var remaining: nat

    ghost function Left(): seq<byte>
      reads this`index, this`offset
      requires index <= |segments| && (index < |segments| ==> offset <= |segments[index]|)
    {
      LeftOf(segments, index, offset)
    }

    ghost predicate Valid()
      reads this
    {
      && NoneEmpty(segments) && index <= |segments| && (index < |segments| ==> offset < |segments[index]|)
      && remaining == |Left()|
    }

    constructor (segments: seq<seq<byte>>)
      requires NoneEmpty(segments)
      ensures Valid() && Left() == Flat(segments)
    {
      this.segments, index, offset, remaining := segments, 0, 0, |Flat(segments)|;
      new;
      LeftIsFlat(segments, 0);
      assert segments[0..] == segments;
    }

    /** The bytes at hand: some of what is left, and none only when nothing is left. */
    function Chunk(): (r: seq<byte>)
      requires Valid()
      reads this
      ensures r <= Left() && (r == [] <==> remaining == 0)
    {
      if remaining == 0 then [] else segments[index][offset..]
    }

    /** One turn of the loop in `advance`: within the segment, or on to the next one. */
    method Pass(todo: nat) returns (left: nat)
      requires NoneEmpty(segments) && index < |segments| && offset < |segments[index]| && 0 < todo <= |Left()|
      modifies this`index, this`offset
      ensures left < todo && index <= |segments| && (index < |segments| ==> offset < |segments[index]|)
      ensures Left() == old(Left())[todo - left..]
    {
      hide LeftOf;
      var available := |segments[index]| - offset;
      if todo < available {
        LeftWithin(segments, index, offset, todo);
        offset, left := offset + todo, 0;
      } else {
        LeftAcross(segments, index, offset);
        left, index, offset := todo - available, index + 1, 0;
      }
    }

    method Advance(cnt: nat)
      requires Valid() && cnt <= remaining
      modifies this`index, this`offset, this`remaining
      ensures Valid() && Left() == old(Left())[cnt..]
    {
      hide Left;
      ghost var all := Left();
      remaining := remaining - cnt;
      var todo: nat := cnt;
      assert all[0..] == all;
      while todo > 0
        invariant NoneEmpty(segments) && index <= |segments| && (index < |segments| ==> offset < |segments[index]|)
        invariant todo <= cnt <= |all| && Left() == all[cnt - todo..] && remaining == |all| - cnt
      {
        ghost var was := todo;
        if index == |segments| { NothingLeft(); }
        todo := Pass(todo);
        assert all[cnt - was..][was - todo..] == all[cnt - todo..];
      }
    }

    lemma NothingLeft()
      requires index == |segments|
      ensures Left() == []
    {
    }

    /** Reading to the end yields the segments end to end. */
    method ReadAll() returns (bytes: seq<byte>)
      requires Valid()
      modifies this`index, this`offset, this`remaining
      ensures bytes == old(Left()) && remaining == 0
    {
      ghost var all := Left();
      bytes := [];
      while remaining > 0
        invariant Valid() && bytes + Left() == all
        decreases remaining
      {
        var chunk := Chunk();
        ghost var left := Left();
        Advance(|chunk|);
        assert left == chunk + Left();
        Joined(bytes, chunk, Left());
        bytes := bytes + chunk;
      }
      assert bytes + [] == bytes;
    }
  }

  lemma LeftWithin(segments: seq<seq<byte>>, i: nat, offset: nat, n: nat)
    requires i < |segments| && offset + n <= |segments[i]|
    ensures LeftOf(segments, i, offset + n) == LeftOf(segments, i, offset)[n..]
  {
    hide Flat;
    var here, later := segments[i], Flat(segments[i + 1..]);
    DropFront(here[offset..], later, n);
    assert here[offset..][n..] == here[offset + n..];
  }

  lemma LeftAcross(segments: seq<seq<byte>>, i: nat, offset: nat)
    requires i < |segments| && offset <= |segments[i]|
    ensures LeftOf(segments, i + 1, 0) == LeftOf(segments, i, offset)[|segments[i]| - offset..]
  {
    hide Flat;
    var here, later := segments[i][offset..], Flat(segments[i + 1..]);
    assert (here + later)[|here|..] == later;
    LeftIsFlat(segments, i + 1);
  }

  lemma LeftIsFlat(segments: seq<seq<byte>>, i: nat)
    requires i <= |segments|
    ensures LeftOf(segments, i, 0) == Flat(segments[i..])
  {
    if i < |segments| {
      assert segments[i..][1..] == segments[i + 1..] && segments[i][0..] == segments[i];
    }
  }

  lemma DropFront(a: seq<byte>, b: seq<byte>, n: nat)
    requires n <= |a|
    ensures (a + b)[n..] == a[n..] + b
  {
  }
}
