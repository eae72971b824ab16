/** nanopb's memory streams and its field iterator, as the mutable objects they are. */
module PbStreams {
  import opened Bits
  import opened Common
  import opened PbTypes
  import opened PbWire

  // -------------------------------------------------------------- output streams

  /** What writing changes: the memory, the write position and the byte count. */
  datatype Sink = Sink(mem: seq<byte>, pos: nat, written: nat)

  /** The sink after b went out; a sizing stream only counts. */
  ghost function After(k: Sink, sizing: bool, b: seq<byte>): Sink
    requires sizing || k.pos + |b| <= |k.mem|
  {
    if sizing then k.(written := k.written + |b|)
    else Sink(k.mem[..k.pos] + b + k.mem[k.pos + |b|..], k.pos + |b|, k.written + |b|)
  }

  /** Nothing is counted that the memory has no room for. */
  ghost predicate Roomy(k: Sink, sizing: bool, max: nat) {
    sizing || (k.written <= max && k.pos + (max - k.written) <= |k.mem|)
  }

  /** The outcome every encoder promises for the bytes e it stands for: it succeeds
      exactly when e exists and fits, and then appends exactly e. */
  ghost predicate Emits(k: Sink, k': Sink, sizing: bool, max: nat, ok: bool, e: Option<seq<byte>>)
    requires Roomy(k, sizing, max)
  {
    && ok == (e.Some? && (sizing || k.written + |e.value| <= max))
    && (ok ==> k' == After(k, sizing, e.value))
  }

  /** A first part that went out followed by a second: the outcome for the whole. */
  lemma EmitsThen(k: Sink, k1: Sink, k2: Sink, sizing: bool, max: nat,
                  head: seq<byte>, ok: bool, e: Option<seq<byte>>, whole: Option<seq<byte>>)
    requires Roomy(k, sizing, max) && Roomy(k1, sizing, max)
    requires Emits(k, k1, sizing, max, true, Some(head))
    requires Emits(k1, k2, sizing, max, ok, e)
    requires whole == if e.Some? then Some(head + e.value) else None
    ensures Emits(k, k2, sizing, max, ok, whole)
  {
    if ok { AfterTwice(k, sizing, head, e.value); }
  }

  /** When a first part fails, so does the whole. */
  lemma EmitsFails(k: Sink, k': Sink, sizing: bool, max: nat, e: Option<seq<byte>>, tail: Option<seq<byte>>)
    requires Roomy(k, sizing, max) && Emits(k, k', sizing, max, false, e)
    ensures Emits(k, k', sizing, max, false, if e.Some? && tail.Some? then Some(e.value + tail.value) else None)
  {
  }

  lemma EmitsNone(k: Sink, k': Sink, sizing: bool, max: nat)
    requires Roomy(k, sizing, max)
    ensures Emits(k, k', sizing, max, false, None)
  {
  }

  lemma AfterTwice(k: Sink, sizing: bool, b: seq<byte>, c: seq<byte>)
    requires sizing || k.pos + |b| + |c| <= |k.mem|
    ensures After(After(k, sizing, b), sizing, c) == After(k, sizing, b + c)
  {
    if !sizing {
      assert After(After(k, sizing, b), sizing, c).mem == After(k, sizing, b + c).mem;
    }
  }

  lemma EmitsNothing(k: Sink, sizing: bool, max: nat)
    requires Roomy(k, sizing, max)
    ensures Emits(k, k, sizing, max, true, Some([]))
  {
    if !sizing { assert k.mem[..k.pos] + [] + k.mem[k.pos..] == k.mem; }
  }

  class OStream {
    const buf: array?<byte>   // null: the sizing stream, whose callback is NULL
    const max: nat
    var pos: nat
    var written: nat

    ghost predicate Valid()
      reads this
    {
      buf != null ==> written <= max && pos + (max - written) <= buf.Length
    }

    ghost function Snap(): (k: Sink)
      reads this, buf
    {
      Sink(if buf == null then [] else buf[..], pos, written)
    }

    /** Whether n more bytes can be written. */
    ghost predicate Room(n: nat)
      reads this
    {
      buf == null || written + n <= max
    }

    /** Emits, between the old state and the current one. */
    twostate predicate Emitted(ok: bool, new e: Option<seq<byte>>)
      requires old(Valid())
      reads this, buf
    {
      Emits(old(Snap()), Snap(), buf == null, max, ok, e)
    }

    constructor FromBuffer(buf: array<byte>, bufsize: nat)
      requires bufsize <= buf.Length
      ensures Valid() && fresh(this) && this.buf == buf && max == bufsize
      ensures Snap() == Sink(buf[..], 0, 0)
    {
      this.buf, max, pos, written := buf, bufsize, 0, 0;
    }

    constructor Sizing()
      ensures Valid() && fresh(this) && buf == null && Snap() == Sink([], 0, 0)
    {
      buf, max, pos, written := null, 0, 0, 0;
    }

    /** The substream of pb_encode_submessage: the same memory, size bytes of room. */
    constructor Within(parent: OStream, size: nat)
      requires parent.Valid() && parent.buf != null && parent.Room(size)
      ensures Valid() && fresh(this) && buf == parent.buf && max == size
      ensures Snap() == parent.Snap().(written := 0)
    {
      buf, max, pos, written := parent.buf, size, parent.pos, 0;
    }

    /** buf_write */
    method BufWrite(data: seq<byte>)
      requires Valid() && buf != null && Room(|data|)
      modifies this`pos, buf
      ensures Sink(buf[..], pos, written + |data|) == After(old(Snap()), false, data)
    {
      var dest := pos;
      pos := pos + |data|;
      ghost var mem := buf[..];
      for i := 0 to |data|
        invariant pos == dest + |data|
        invariant buf[..] == mem[..dest] + data[..i] + mem[dest + i..]
      {
        buf[dest + i] := data[i];
      }
      assert data[..|data|] == data;
    }

    /** pb_write */
    method Write(data: seq<byte>) returns (ok: bool)
      requires Valid()
      modifies this, buf
      ensures Valid() && Emitted(ok, Some(data))
    {
      if buf != null {
        if written + |data| > max { return false; }
        BufWrite(data);
      }
      written := written + |data|;
      return true;
    }

    /** pb_write with a null buffer, which only sizing streams receive; data is what the
        stream is told has n bytes. */
    method Count(n: nat, ghost data: seq<byte>) returns (ok: bool)
      requires Valid() && buf == null && |data| == n
      modifies this
      ensures Valid() && Emitted(ok, Some(data))
    {
      written := written + n;
      return true;
    }
  }

  // --------------------------------------------------------------- input streams

  class IStream {
    const buf: seq<byte>
    var pos: nat
    var left: nat

    ghost predicate Valid()
      reads this
    {
      pos + left <= |buf|
    }

    /** The bytes still to be read. */
    ghost function View(): (v: seq<byte>)
      requires Valid()
      reads this
      ensures |v| == left
    {
      buf[pos..pos + left]
    }

    /** Where the stream ends; reading never moves it. */
    ghost function End(): nat
      reads this
    {
      pos + left
    }

    constructor FromBuffer(buf: seq<byte>)
      ensures Valid() && fresh(this) && View() == buf
    {
      this.buf, pos, left := buf, 0, |buf|;
    }

    constructor Copy(s: IStream, size: nat)
      requires s.Valid() && size <= s.left
      ensures Valid() && fresh(this) && buf == s.buf && pos == s.pos && left == size
    {
      buf, pos, left := s.buf, s.pos, size;
    }

    /** buf_read */
    method BufRead(count: nat) returns (data: seq<byte>)
      requires Valid() && count <= left
      modifies this`pos
      ensures data == old(View())[..count] && pos == old(pos) + count
    {
      var source := pos;
      pos := pos + count;
      data := [];
      for i := 0 to count
        invariant data == buf[source..source + i]
      {
        data := data + [buf[source + i]];
      }
    }

    /** pb_read */
    method Read(count: nat) returns (ok: bool, data: seq<byte>)
      requires Valid()
      modifies this
      ensures Valid() && End() == old(End())
      ensures match DecBytes(old(View()), count)
              case Fail => !ok && View() == old(View())
              case Ok(v, rest) => ok && data == v && View() == rest
    {
      if left < count { return false, []; }
      data := BufRead(count);
      left := left - count;
      return true, data;
    }

    /** pb_readbyte */
    method ReadByte() returns (ok: bool, b: byte)
      requires Valid()
      modifies this
      ensures Valid() && End() == old(End())
      ensures ok == (old(left) > 0)
      ensures if ok then [b] + View() == old(View()) && left == old(left) - 1 else View() == old(View())
    {
      if left == 0 { return false, 0; }
      b := buf[pos];
      pos := pos + 1;
      left := left - 1;
      return true, b;
    }
  }

  // --------------------------------------------------------------- field iterator

  /** Space the data of an entry takes in the structure. */
  function Extent(f: Field): nat {
    if f.htype.Repeated? then f.dataSize * f.arraySize else f.dataSize
  }

  /** Offset of entry i's data, by a scan from the start. */
  function DataOffset(fs: seq<Field>, i: nat): int
    requires i < |fs|
  {
    if i == 0 then fs[0].dataOffset
    else if Joined(fs, i) then DataOffset(fs, i - 1)
    else DataOffset(fs, i - 1) + Extent(fs[i - 1]) + fs[i].dataOffset
  }

  /** Offset of entry i's has_, count or which_ field. */
  function SizeOffset(fs: seq<Field>, i: nat): int
    requires i < |fs|
  {
    if Joined(fs, i) then SizeOffset(fs, i - 1) else DataOffset(fs, i) + fs[i].sizeOffset
  }

  /** pb_field_iter_t: a cursor cycling over the table. */
  class FieldIter {
    const start: seq<Field>
    var pos: nat
    var required: nat
    var pData: int
    var pSize: int

    /** Wherever the cursor is, it carries what a linear scan up to there computes. */
    ghost predicate Valid()
      reads this
    {
      if start == [] then pos == 0 && required == 0
      else && pos < |start|
           && required == RequiredIndex(start, pos)
           && pData == DataOffset(start, pos)
           && pSize == SizeOffset(start, pos)
    }

    constructor (fields: seq<Field>)
      ensures Valid() && fresh(this) && start == fields && pos == 0
    {
      start, pos, required := fields, 0, 0;
      pData := if fields == [] then 0 else fields[0].dataOffset;
      pSize := if fields == [] then 0 else fields[0].dataOffset + fields[0].sizeOffset;
    }

    /** pb_field_iter_begin */
    method Begin() returns (nonempty: bool)
      modifies this
      ensures Valid() && pos == 0 && nonempty == (start != [])
    {
      pos := 0;
      required := 0;
      if start != [] {
        pData := start[0].dataOffset;
        pSize := pData + start[0].sizeOffset;
      }
      return start != [];
    }

    /** pb_field_iter_next */
    method Next() returns (more: bool)
      requires Valid()
      modifies this
      ensures Valid()
      ensures more == (old(pos) + 1 < |start|)
      ensures pos == if more then old(pos) + 1 else 0
    {
      if start == [] { return false; }
      var prev := start[pos];
      pos := pos + 1;
      if pos == |start| {
        var _ := Begin();
        return false;
      }
      var prevSize := prev.dataSize;
      if prev.htype.Oneof? && start[pos].htype.Oneof? && start[pos].dataOffset == SIZE_MAX {
        return true;
      } else if prev.htype.Repeated? {
        prevSize := prevSize * prev.arraySize;
      }
      if prev.htype.Required? { required := required + 1; }
      pData := pData + prevSize + start[pos].dataOffset;
      pSize := pData + start[pos].sizeOffset;
      return true;
    }

    /** pb_field_iter_find: from any position, finds the tag exactly when an entry has it.
        The terminator of an empty table answers to tag zero. */
    method FindTag(tag: nat) returns (found: bool)
      requires Valid() && forall i :: 0 <= i < |start| ==> start[i].tag != 0
      modifies this
      ensures Valid()
      ensures found <==> (exists i :: 0 <= i < |start| && start[i].tag == tag) || (start == [] && tag == 0)
      ensures found && start != [] ==> start[pos].tag == tag
      ensures !found ==> pos == old(pos)
    {
      var first := pos;
      if start == [] { return tag == 0; }
      ghost var steps := 0;
      while true
        invariant Valid() && steps < |start| && first < |start|
        invariant pos == if first + steps < |start| then first + steps else first + steps - |start|
        invariant forall i :: 0 <= i < |start| && Passed(first, steps, i) ==> start[i].tag != tag
        decreases |start| - steps
      {
        if start[pos].tag == tag { return true; }
        var _ := Next();
        steps := steps + 1;
        if pos == first {
          assert forall i :: 0 <= i < |start| ==> Passed(first, steps, i);
          return false;
        }
      }
    }

    /** Entry i is among the first steps ones a cursor passes starting at first. */
    ghost predicate Passed(first: nat, steps: nat, i: nat)
    {
      first <= i < first + steps || i < first + steps - |start|
    }
  }
}
