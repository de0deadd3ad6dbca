/** The ring as the two halves run it: an object whose fields the producer and
    the consumer update in place over one array of twice the capacity. */
module SpscQueue {
  import opened Wrappers
  import opened Words
  import opened Fifo
  import RingProofs

  datatype WriteResult = Written | OversizedWrite | QueueFull

  /** `n.next_power_of_two()` as an exponent. */
  function CeilLog2(n: nat): (k: nat)
    requires n >= 1
    ensures n <= Pow2(k) && (k > 0 ==> Pow2(k - 1) < n)
  {
    CeilLog2From(n, 0)
  }

  function CeilLog2From(n: nat, i: nat): (k: nat)
    requires n >= 1 && (i > 0 ==> Pow2(i - 1) < n)
    ensures n <= Pow2(k) && (k > 0 ==> Pow2(k - 1) < n)
    decreases n - Pow2(i)
  {
    if n <= Pow2(i) then i else CeilLog2From(n, i + 1)
  }

  /** Chunk `i` sits contiguously at its masked position. */
  ghost predicate StoredAt(buf: seq<byte>, cap: nat, chunks: seq<Chunk>, i: nat)
    requires i < |chunks| && cap > 0
  {
    var o := Pos(chunks, i) % cap;
    o + |chunks[i]| <= |buf| && buf[o..o + |chunks[i]|] == chunks[i]
  }

  class Queue {
    const wordBits: nat
    const capBits: nat
    const capacity: nat
    const mask: nat
    const buf: array<byte>

    // Shared positions.
    var writePos: nat
    var readPos: nat

    // Producer half.
    var write: nat
    var cachedRead: nat

    // Consumer half.
    var read: nat
    var cachedWrite: nat

    // What has been written, and the chunk boundaries behind the positions.
    ghost var chunks: seq<Chunk>
    ghost var consumed: nat
    ghost var seenRead: nat
    ghost var seenWrite: nat

    ghost predicate Indices()
      reads this
    {
      && capBits < wordBits && capacity == Pow2(capBits) && mask == capacity - 1
      && buf.Length == 2 * capacity
      && seenRead <= consumed <= seenWrite <= |chunks|
    }

    ghost predicate Positions()
      requires Indices()
      reads this
    {
      var m := Pow2(wordBits);
      && writePos == write == Pos(chunks, |chunks|) % m
      && readPos == read == Pos(chunks, consumed) % m
      && cachedRead == Pos(chunks, seenRead) % m
      && cachedWrite == Pos(chunks, seenWrite) % m
      && Pos(chunks, |chunks|) <= Pos(chunks, seenRead) + capacity
    }

    ghost predicate Valid()
      reads this, buf
    {
      && Indices() && Positions()
      && forall i {:trigger StoredAt(buf[..], capacity, chunks, i)} ::
           consumed <= i < |chunks| ==> StoredAt(buf[..], capacity, chunks, i)
    }

    /** The chunks written and not yet read, oldest first. */
    ghost function Unread(): seq<Chunk>
      requires consumed <= |chunks|
      reads this
    {
      chunks[consumed..]
    }

    ghost function UnreadBytes(): int
      requires consumed <= |chunks|
      reads this
    {
      Pos(chunks, |chunks|) - Pos(chunks, consumed)
    }

    lemma Facts()
      requires Valid()
      ensures 1 <= capacity && 2 * capacity <= Pow2(wordBits)
      ensures Pos(chunks, seenRead) <= Pos(chunks, consumed) <= Pos(chunks, seenWrite) <= Pos(chunks, |chunks|)
    {
      Pow2Grows(capBits, wordBits);
      PosMono(chunks, seenRead, consumed);
      PosMono(chunks, consumed, seenWrite);
      PosMono(chunks, seenWrite, |chunks|);
    }

    lemma MaskedPosition(p: nat)
      requires Valid()
      ensures BitAnd(p % Pow2(wordBits), mask) == p % capacity
    {
      Pow2Add(capBits, wordBits - capBits);
      MaskIsMod(p % Pow2(wordBits), capBits);
      ModOfMod(p, capacity, Pow2(wordBits - capBits));
    }

    constructor (requested: nat, wordBits: nat)
      requires requested > 0 && CeilLog2(requested) < wordBits
      ensures Valid() && chunks == [] && consumed == 0 && fresh(buf)
      ensures requested <= capacity < 2 * requested && this.wordBits == wordBits
    {
      var k := CeilLog2(requested);
      var p := Pow2(k);
      ModUnique(0, 0, 0, Pow2(wordBits));
      this.wordBits := wordBits;
      capBits := k;
      capacity := p;
      mask := p - 1;
      buf := new byte[2 * p](_ => 0);
      writePos, readPos, write, cachedRead, read, cachedWrite := 0, 0, 0, 0, 0, 0;
      chunks, consumed, seenRead, seenWrite := [], 0, 0, 0;
      new;
      assert Indices() && Pos(chunks, 0) == 0;
      assert Positions();
    }

    /** Offset of `n` contiguous free bytes, or `None` if they do not fit. */
    method TryReserve(n: nat) returns (r: Option<nat>)
      requires Valid()
      modifies this`cachedRead, this`seenRead
      ensures Valid()
      ensures r.Some? <==> UnreadBytes() + n <= capacity
      ensures r.Some? ==> r.value == Pos(chunks, |chunks|) % capacity && Pos(chunks, |chunks|) + n <= Pos(chunks, seenRead) + capacity
    {
      Facts();
      if n > capacity {
        return None;
      }
      WrapSubExact(Pos(chunks, |chunks|), Pos(chunks, seenRead), Pow2(wordBits));
      var available := capacity - WrapSub(write, cachedRead, Pow2(wordBits));
      assert available >= 0;
      if available < n {
        cachedRead := readPos;
        seenRead := consumed;
        WrapSubExact(Pos(chunks, |chunks|), Pos(chunks, seenRead), Pow2(wordBits));
        available := capacity - WrapSub(write, cachedRead, Pow2(wordBits));
        assert available >= 0;
        if available < n {
          return None;
        }
      }
      MaskedPosition(Pos(chunks, |chunks|));
      return Some(BitAnd(write, mask));
    }

    /** Writing into the free region moves no unread chunk. */
    lemma BlitKeepsStored(before: seq<byte>, after: seq<byte>, o: nat, n: nat, i: nat)
      requires Indices() && Positions() && capacity > 0
      requires |before| == |after| == 2 * capacity
      requires o == Pos(chunks, |chunks|) % capacity && 0 < n
      requires Pos(chunks, |chunks|) + n <= Pos(chunks, seenRead) + capacity
      requires forall x :: 0 <= x < |after| && !(o <= x < o + n) ==> after[x] == before[x]
      requires consumed <= i < |chunks| && StoredAt(before, capacity, chunks, i)
      ensures StoredAt(after, capacity, chunks, i)
    {
      PosMono(chunks, seenRead, i);
      PosMono(chunks, i, |chunks|);
      RingProofs.PhysicallyDisjoint(capacity, Pos(chunks, i), |chunks[i]|, Pos(chunks, |chunks|), n);
      var p := Pos(chunks, i) % capacity;
      assert after[p..p + |chunks[i]|] == before[p..p + |chunks[i]|];
    }

    /** Publishes the bytes of `data`, which the caller has put at the write offset. */
    ghost method Append(data: Chunk)
      requires Indices() && Positions()
      requires Pos(chunks, |chunks|) + |data| <= Pos(chunks, seenRead) + capacity
      requires forall i {:trigger StoredAt(buf[..], capacity, chunks, i)} ::
                 consumed <= i < |chunks| ==> StoredAt(buf[..], capacity, chunks, i)
      requires var o := Pos(chunks, |chunks|) % capacity; o + |data| <= buf.Length && buf[o..o + |data|] == data
      modifies this`chunks
      ensures chunks == old(chunks) + [data]
      ensures Indices()
      ensures Pos(chunks, |chunks|) == old(Pos(chunks, |chunks|)) + |data|
      ensures forall i: nat :: i < |chunks| ==> Pos(chunks, i) == Pos(old(chunks), i)
      ensures forall i {:trigger StoredAt(buf[..], capacity, chunks, i)} ::
                consumed <= i < |chunks| ==> StoredAt(buf[..], capacity, chunks, i)
    {
      var was := chunks;
      chunks := chunks + [data];
      forall i: nat | i < |chunks| ensures Pos(chunks, i) == Pos(was, i) {
        PosAppend(was, data, i);
      }
      forall i | consumed <= i < |chunks| ensures StoredAt(buf[..], capacity, chunks, i) {
        if i < |was| {
          assert StoredAt(buf[..], capacity, was, i);
        }
      }
    }

    /** Advances and publishes the write position over `data`. */
    method Commit(data: Chunk)
      requires Valid()
      requires Pos(chunks, |chunks|) + |data| <= Pos(chunks, seenRead) + capacity
      requires var o := Pos(chunks, |chunks|) % capacity; o + |data| <= buf.Length && buf[o..o + |data|] == data
      modifies this`chunks, this`write, this`writePos
      ensures Valid() && chunks == old(chunks) + [data]
    {
      Append(data);
      WrapAddExact(Pos(old(chunks), |old(chunks)|), |data|, Pow2(wordBits));
      write := WrapAdd(write, |data|, Pow2(wordBits));
      writePos := write;
    }

    /** Reserves, fills and commits one chunk. */
    method Write(data: Chunk) returns (r: WriteResult)
      requires Valid()
      modifies this, buf
      ensures Valid() && consumed == old(consumed)
      ensures r == (if |data| > capacity then OversizedWrite
                    else if old(UnreadBytes()) + |data| > capacity then QueueFull else Written)
      ensures Unread() == if r.Written? then old(Unread()) + [data] else old(Unread())
    {
      Facts();
      var reserved := TryReserve(|data|);
      if reserved.None? {
        return if |data| > capacity then OversizedWrite else QueueFull;
      }
      var offset := reserved.value;
      Fill(offset, data);
      Commit(data);
      assert Unread() == old(Unread()) + [data];
      return Written;
    }

    /** The closure passed to `write`: copies `data` into the reserved slice. */
    method Fill(offset: nat, data: Chunk)
      requires Valid()
      requires offset == Pos(chunks, |chunks|) % capacity
      requires Pos(chunks, |chunks|) + |data| <= Pos(chunks, seenRead) + capacity
      modifies buf
      ensures Valid()
      ensures offset + |data| <= buf.Length && buf[offset..offset + |data|] == data
    {
      Facts();
      ghost var before := buf[..];
      var j := 0;
      while j < |data|
        invariant 0 <= j <= |data|
        invariant forall x :: 0 <= x < j ==> buf[offset + x] == data[x]
        invariant forall x :: 0 <= x < buf.Length && !(offset <= x < offset + |data|) ==> buf[x] == before[x]
      {
        buf[offset + j] := data[j];
        j := j + 1;
      }
      if 0 < |data| {
        forall i | consumed <= i < |chunks| ensures StoredAt(buf[..], capacity, chunks, i) {
          assert StoredAt(before, capacity, chunks, i);
          BlitKeepsStored(before, buf[..], offset, |data|, i);
        }
      } else {
        assert buf[..] == before;
      }
    }

    /** Bytes known to be readable; zero only if the queue holds none. */
    method Available() returns (n: nat)
      requires Valid()
      modifies this`cachedWrite, this`seenWrite
      ensures Valid() && old(seenWrite) <= seenWrite
      ensures n == Pos(chunks, seenWrite) - Pos(chunks, consumed) <= UnreadBytes()
      ensures n == 0 <==> UnreadBytes() == 0
    {
      Facts();
      WrapSubExact(Pos(chunks, seenWrite), Pos(chunks, consumed), Pow2(wordBits));
      if cachedWrite > read {
        return WrapSub(cachedWrite, read, Pow2(wordBits));
      }
      cachedWrite := writePos;
      seenWrite := |chunks|;
      WrapSubExact(Pos(chunks, seenWrite), Pos(chunks, consumed), Pow2(wordBits));
      return WrapSub(cachedWrite, read, Pow2(wordBits));
    }

    /** A prefix of the next chunk, without advancing. */
    method Peek(len: nat) returns (bytes: Chunk)
      requires Valid()
      requires Unread() != [] && len <= |Unread()[0]|
      modifies this`cachedWrite, this`seenWrite
      ensures Valid() && bytes == Unread()[0][..len]
    {
      Facts();
      var avail := Available();
      NextChunkSeen();
      assert len <= avail;
      MaskedPosition(Pos(chunks, consumed));
      var offset := BitAnd(read, mask);
      assert StoredAt(buf[..], capacity, chunks, consumed);
      bytes := buf[offset..offset + len];
      assert bytes == buf[..][offset..offset + |chunks[consumed]|][..len];
    }

    /** If anything of the next chunk is readable, all of it is. */
    lemma NextChunkSeen()
      requires Valid() && consumed < |chunks|
      requires Pos(chunks, seenWrite) == Pos(chunks, consumed) ==> Pos(chunks, |chunks|) == Pos(chunks, consumed)
      ensures |chunks[consumed]| <= Pos(chunks, seenWrite) - Pos(chunks, consumed)
    {
      PosMono(chunks, consumed, |chunks|);
      PosMono(chunks, consumed, seenWrite);
    }

    /** The whole next chunk; advances past it. */
    method Read(len: nat) returns (bytes: Chunk)
      requires Valid()
      requires Unread() != [] && len == |Unread()[0]|
      modifies this
      ensures Valid() && chunks == old(chunks)
      ensures bytes == old(Unread())[0] && Unread() == old(Unread())[1..]
    {
      Facts();
      var avail := Available();
      NextChunkSeen();
      assert len <= avail;
      MaskedPosition(Pos(chunks, consumed));
      var offset := BitAnd(read, mask);
      assert StoredAt(buf[..], capacity, chunks, consumed);
      bytes := buf[offset..offset + len];
      assert bytes == buf[..][offset..offset + len];
      Advance(len);
    }

    method Advance(n: nat)
      requires Valid() && consumed < |chunks| && n == |chunks[consumed]|
      requires n <= Pos(chunks, seenWrite) - Pos(chunks, consumed)
      modifies this`read, this`readPos, this`consumed, this`seenWrite
      ensures Valid() && consumed == old(consumed) + 1
    {
      WrapAddExact(Pos(chunks, consumed), n, Pow2(wordBits));
      read := WrapAdd(read, n, Pow2(wordBits));
      readPos := read;
      consumed := consumed + 1;
      if seenWrite < consumed {
        // Only an empty chunk can be passed without the write position having moved.
        seenWrite := consumed;
      }
      assert forall i {:trigger StoredAt(buf[..], capacity, chunks, i)} ::
          consumed <= i < |chunks| ==> StoredAt(buf[..], capacity, chunks, i);
    }
  }
}
