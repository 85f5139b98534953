/** Moving clipboard text through a pipe (src/session/clipboard.c:21-37, 102-119): the writer copes with
    short writes, the reader with short reads and a buffer that doubles up to a cap. */
module ClipboardTransfer {
  import opened Options
  import opened Words

  const PAGE: nat := 4096
  const MAX_SIZE: nat := 16 * 1024 * 1024

  /** How the kernel answers one read or write: at most so many bytes but at least one, or an error. */
  datatype Answer = Chunk(n: nat) | Error

  /** The k-th answer; an exhausted script moves all it is asked for. */
  function AnswerAt(script: seq<Answer>, k: nat): (r: Answer) {
    if k < |script| then script[k] else Chunk(MAX_SIZE)
  }

  function Min(a: nat, b: nat): (r: nat) {
    if a <= b then a else b
  }

  /** Bytes moved when `want` are asked for and `available` are there; no bytes mean end of file. */
  function Moved(a: Answer, want: nat, available: nat): (n: nat)
    ensures n <= want && n <= available
  {
    var most := Min(want, available);
    match a
    case Error => 0
    case Chunk(n) => if most == 0 then 0 else if n == 0 then 1 else Min(n, most)
  }

  ghost predicate NoErrors(script: seq<Answer>) {
    forall a :: a in script ==> a.Chunk?
  }

  ghost predicate AllTrue(answers: seq<bool>) {
    forall b :: b in answers ==> b
  }

  function Pow2(k: nat): (r: nat) {
    if k == 0 then 1 else 2 * Pow2(k - 1)
  }

  /** The buffer sizes the reader can have: 4096, doubled at most twelve times. */
  ghost predicate IsCapacity(capacity: nat) {
    exists k :: 0 <= k <= 12 && capacity == PAGE * Pow2(k)
  }

  lemma Pow2Table()
    ensures Pow2(12) == 4096
  {
    assert Pow2(3) == 8;
    assert Pow2(6) == 64;
    assert Pow2(9) == 512;
  }

  lemma {:induction false} Pow2AtMost(k: nat)
    requires k <= 12
    ensures 1 <= Pow2(k) && Pow2(k) * Pow2(12 - k) == Pow2(12) && Pow2(k) <= 4096
    decreases 12 - k
  {
    Pow2Table();
    if k < 12 {
      Pow2AtMost(k + 1);
      assert Pow2(12 - k) == 2 * Pow2(12 - (k + 1));
    }
  }

  lemma CapacityDoubles(capacity: nat)
    requires IsCapacity(capacity)
    ensures PAGE <= capacity <= MAX_SIZE
    ensures capacity < MAX_SIZE ==> IsCapacity(capacity * 2)
    ensures IsCapacity(MAX_SIZE)
  {
    var k :| 0 <= k <= 12 && capacity == PAGE * Pow2(k);
    Pow2Table();
    assert k < 12 ==> capacity * 2 == PAGE * Pow2(k + 1);
    assert MAX_SIZE == PAGE * Pow2(12);
    Pow2AtMost(k);
    if k == 12 {
      assert capacity == MAX_SIZE;
    }
  }

  lemma FirstCapacity()
    ensures IsCapacity(PAGE)
  {
    assert PAGE == PAGE * Pow2(0);
  }

  /** One read: how much was there already, how much the buffer could hold, how much was asked for. */
  datatype ReadCall = ReadCall(total: nat, capacity: nat, want: nat)

  /** No read asks for nothing, so a read of zero bytes is always the end of the stream; and a read asks
      for a whole page unless the cap is nearer. */
  ghost predicate SoundCall(c: ReadCall) {
    IsCapacity(c.capacity) && c.total < MAX_SIZE
    && 0 < c.want == c.capacity - c.total
    && Min(PAGE, MAX_SIZE - c.total) <= c.want
  }

  lemma NextCapacity(total: nat, capacity: nat, wanted: nat)
    requires total < MAX_SIZE && total <= capacity && total + PAGE > capacity
    requires capacity == 0 || IsCapacity(capacity)
    requires wanted == Min(if capacity == 0 then PAGE else capacity * 2, MAX_SIZE)
    ensures IsCapacity(wanted) && total <= wanted <= MAX_SIZE && SoundCall(ReadCall(total, wanted, wanted - total))
  {
    FirstCapacity();
    if capacity != 0 {
      CapacityDoubles(capacity);
    }
  }

  lemma RoomLeft(total: nat, capacity: nat)
    requires total < MAX_SIZE && total + PAGE <= capacity && (capacity == 0 || IsCapacity(capacity))
    ensures SoundCall(ReadCall(total, capacity, capacity - total))
  {
  }

  /** `realloc` to a larger capacity: what the buffer held is kept. */
  method Grow(buf: array<Byte>, total: nat, capacity: nat) returns (room: array<Byte>)
    requires total <= buf.Length && total <= capacity
    ensures fresh(room) && room.Length == capacity && room[..total] == buf[..total]
  {
    room := new Byte[capacity];
    forall i | 0 <= i < total {
      room[i] := buf[i];
    }
  }

  /** The capacity that a buffer too full for another page is to get: doubled, up to the cap. */
  method NeededCapacity(total: nat, capacity: nat) returns (needed: nat)
    requires total < MAX_SIZE && total <= capacity && total + PAGE > capacity
    requires capacity == 0 || IsCapacity(capacity)
    ensures total <= needed && IsCapacity(needed) && SoundCall(ReadCall(total, needed, needed - total))
  {
    needed := if capacity == 0 then PAGE else capacity * 2;
    if needed > MAX_SIZE {
      needed := MAX_SIZE;
    }
    NextCapacity(total, capacity, needed);
  }

  /** Room for one more read. */
  method MakeRoom(buf: array<Byte>, total: nat, reallocOk: bool) returns (ok: bool, room: array<Byte>)
    requires total <= buf.Length && total < MAX_SIZE && (buf.Length == 0 || IsCapacity(buf.Length))
    ensures room == buf || fresh(room)
    ensures ok ==> total <= room.Length && room[..total] == buf[..total]
    ensures ok ==> IsCapacity(room.Length) && SoundCall(ReadCall(total, room.Length, room.Length - total))
    ensures reallocOk ==> ok
  {
    if total + PAGE <= buf.Length {
      RoomLeft(total, buf.Length);
      return true, buf;
    }
    var capacity := NeededCapacity(total, buf.Length);
    if !reallocOk {
      return false, buf;
    }
    room := Grow(buf, total, capacity);
    return true, room;
  }

  /** `read` into the free part of the buffer: the next n bytes of the stream. */
  method ReadInto(buf: array<Byte>, total: nat, stream: seq<Byte>, n: nat)
    requires total + n <= buf.Length && total + n <= |stream| && buf[..total] == stream[..total]
    modifies buf
    ensures buf[..total + n] == stream[..total + n]
  {
    forall i | 0 <= i < n {
      buf[total + i] := stream[total + i];
    }
    forall i | 0 <= i < total + n
      ensures buf[i] == stream[i]
    {
      if i < total {
        assert buf[i] == old(buf[..total])[i];
      }
    }
  }

  /** The loop of `read_offer_text` over a stream: whatever the chunks, it returns the first
      min(|stream|, 16 MiB) bytes, and less only if a read or an allocation failed. */
  method ReadOfferText(stream: seq<Byte>, script: seq<Answer>, reallocs: seq<bool>)
    returns (text: seq<Byte>, calls: seq<ReadCall>)
    ensures text <= stream && |text| <= MAX_SIZE
    ensures NoErrors(script) && AllTrue(reallocs) ==> text == stream[..Min(|stream|, MAX_SIZE)]
    ensures forall c :: c in calls ==> SoundCall(c)
  {
    var buf := new Byte[0];
    var total := 0;
    calls := [];
    ghost var failed := false;
    while total < MAX_SIZE
      invariant fresh(buf) && total <= buf.Length <= MAX_SIZE && total <= |stream|
      invariant buf[..total] == stream[..total]
      invariant buf.Length == 0 || IsCapacity(buf.Length)
      invariant forall c :: c in calls ==> SoundCall(c)
      invariant !failed
      decreases MAX_SIZE - total
    {
      var reallocOk := |calls| < |reallocs| ==> reallocs[|calls|];
      var ok, room := MakeRoom(buf, total, reallocOk);
      if !ok {
        assert !reallocs[|calls|] && reallocs[|calls|] in reallocs;
        failed := true;
        break;
      }
      CapacityDoubles(room.Length);
      buf := room;
      var n := Moved(AnswerAt(script, |calls|), buf.Length - total, |stream| - total);
      calls := calls + [ReadCall(total, buf.Length, buf.Length - total)];
      if n == 0 {
        failed := total < |stream|;
        assert failed ==> |calls| - 1 < |script| && script[|calls| - 1].Error? && script[|calls| - 1] in script;
        break;
      }
      ReadInto(buf, total, stream, n);
      total := total + n;
    }
    assert !failed ==> total == Min(|stream|, MAX_SIZE);
    text := buf[..total];
  }

  /** The loop of `source_send`: what it emits is a prefix of the pending text, and all of it unless a
      write failed. */
  method SourceSend(pending: Option<seq<Byte>>, mimeMatches: bool, script: seq<Answer>) returns (emitted: seq<Byte>)
    ensures pending.None? || !mimeMatches ==> emitted == []
    ensures pending.Some? && mimeMatches ==> emitted <= pending.value
    ensures pending.Some? && mimeMatches && NoErrors(script) ==> emitted == pending.value
  {
    emitted := [];
    if pending.Some? && mimeMatches {
      var written := 0;
      var k := 0;
      while written < |pending.value|
        invariant 0 <= written <= |pending.value| && emitted == pending.value[..written]
      {
        var n := Moved(AnswerAt(script, k), |pending.value| - written, |pending.value| - written);
        if n == 0 {
          if k < |script| {
            assert script[k] in script;
          }
          break;
        }
        emitted := emitted + pending.value[written..written + n];
        written := written + n;
        k := k + 1;
      }
    }
  }

  /** Text offered by one clipboard and read by another: under any chunking on both sides it arrives
      unchanged exactly when it fits the cap, and cut to the cap otherwise. */
  method Paste(text: seq<Byte>, writeScript: seq<Answer>, readScript: seq<Answer>, reallocs: seq<bool>)
    returns (received: seq<Byte>)
    ensures received <= text
    ensures NoErrors(writeScript) && NoErrors(readScript) && AllTrue(reallocs) ==>
              received == text[..Min(|text|, MAX_SIZE)] && (received == text <==> |text| <= MAX_SIZE)
  {
    var emitted := SourceSend(Some(text), true, writeScript);
    var calls;
    received, calls := ReadOfferText(emitted, readScript, reallocs);
  }
}
