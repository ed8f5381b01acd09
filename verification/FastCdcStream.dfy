/** The streaming cutter: one window of the maximum size, refilled by reads of any length, cuts
    exactly where the whole-buffer cutter does. */
module FastCdcStream {
  import opened ByteStrings
  import opened FastCdc

  // ----- Readers -----

  datatype ReadError = NoError | Eof | ReadFailed

  /** What one call of `Read` does: give up to n bytes (none, if n is zero), reporting the end of the
      data with the last of them or only on the next call, or fail. */
  datatype Answer = Give(n: nat, eofWithLast: bool) | Fail

  /** An `io.Reader` over some data. Its script fixes how its first calls behave, short reads and
      empty reads included; after it, every call delivers what there is room for. */
  class Reader {
    const data: Bytes
    const script: seq<Answer>
    var pos: nat
    var calls: nat

    ghost predicate Valid()
      reads this
    {
      pos <= |data|
    }

    /** Bounds the number of calls before the end is reported. */
    ghost function Budget(): nat
      requires Valid()
      reads this
    {
      (if calls < |script| then |script| - calls else 0) + (|data| - pos)
    }

    constructor (data: Bytes, script: seq<Answer>)
      ensures Valid() && this.data == data && this.script == script && pos == 0
    {
      this.data, this.script, pos, calls := data, script, 0, 0;
    }

    method Read(room: nat) returns (bytes: Bytes, err: ReadError)
      requires Valid() && room > 0
      modifies this
      ensures Valid() && old(pos) <= pos
      ensures |bytes| <= room && bytes == data[old(pos)..pos]
      ensures err == Eof ==> pos == |data|
      ensures Budget() <= old(Budget())
      ensures err == NoError ==> Budget() < old(Budget())
      ensures Fail !in script ==> err != ReadFailed
    {
      var left := |data| - pos;
      var most := if room < left then room else left;
      if calls < |script| {
        var answer := script[calls];
        calls := calls + 1;
        if answer.Fail? {
          return [], ReadFailed;
        }
        var n := if answer.n < most then answer.n else most;
        bytes := data[pos..pos + n];
        pos := pos + n;
        err := if answer.eofWithLast && pos == |data| then Eof else NoError;
      } else {
        bytes := data[pos..pos + most];
        pos := pos + most;
        err := if most == 0 then Eof else NoError;
      }
    }
  }

  // ----- The window -----

  /** A boundary never depends on bytes past the maximum. */
  lemma BoundaryOfFullWindow(p: Params, g: Gear, data: Bytes)
    requires p.Valid() && |data| >= p.max
    ensures Boundary(p, g, data) == Boundary(p, g, data[..p.max])
  {
    BoundaryAdvances(p, g, data[..p.max]);
    BoundaryIsLocal(p, g, data[..p.max], data);
  }

  datatype StreamError = ReaderFailed | CallbackFailed

  /** The window holds the `filled` bytes of the data before the reader's position. */
  ghost predicate WindowHolds(window: array<byte>, filled: nat, reader: Reader)
    reads window, reader
  {
    && reader.Valid()
    && filled <= window.Length && filled <= reader.pos
    && window[..filled] == reader.data[reader.pos - filled..reader.pos]
  }

  method CopyTo(window: array<byte>, at: nat, bytes: Bytes)
    requires at + |bytes| <= window.Length
    modifies window
    ensures window[..at + |bytes|] == old(window[..at]) + bytes
  {
    forall k | 0 <= k < |bytes| {
      window[at + k] := bytes[k];
    }
    assert window[..at] == old(window[..at]);
  }

  /** One read into the free part of the window. */
  method ReadInto(window: array<byte>, filled: nat, reader: Reader) returns (filled': nat, err: ReadError)
    requires WindowHolds(window, filled, reader) && filled < window.Length
    modifies window, reader
    ensures WindowHolds(window, filled', reader)
    ensures reader.pos - filled' == old(reader.pos) - filled
    ensures err == Eof ==> reader.pos == |reader.data|
    ensures reader.Budget() <= old(reader.Budget())
    ensures err == NoError ==> reader.Budget() < old(reader.Budget())
    ensures Fail !in reader.script ==> err != ReadFailed
  {
    ghost var start, pos := reader.pos - filled, reader.pos;
    var bytes;
    bytes, err := reader.Read(window.Length - filled);
    assert reader.data[start..pos] + bytes == reader.data[start..reader.pos];
    CopyTo(window, filled, bytes);
    filled' := filled + |bytes|;
  }

  /** Reads until the window is full or the data has ended. */
  method Refill(window: array<byte>, filled: nat, eof: bool, reader: Reader)
    returns (filled': nat, eof': bool, failed: bool)
    requires WindowHolds(window, filled, reader)
    requires eof ==> reader.pos == |reader.data|
    modifies window, reader
    ensures WindowHolds(window, filled', reader)
    ensures eof' ==> reader.pos == |reader.data|
    ensures reader.pos - filled' == old(reader.pos) - filled
    ensures !failed ==> filled' == window.Length || eof'
    ensures reader.Budget() <= old(reader.Budget()) && (eof ==> eof')
    ensures filled < window.Length && !eof && !failed ==> reader.Budget() < old(reader.Budget()) || eof'
    ensures Fail !in reader.script ==> !failed
  {
    filled', eof', failed := filled, eof, false;
    while filled' < window.Length && !eof'
      invariant WindowHolds(window, filled', reader)
      invariant eof' ==> reader.pos == |reader.data|
      invariant reader.pos - filled' == old(reader.pos) - filled
      invariant reader.Budget() <= old(reader.Budget()) && (eof ==> eof')
      invariant reader.Budget() < old(reader.Budget()) || eof' || filled' == filled
      decreases reader.Budget(), !eof'
    {
      var err;
      filled', err := ReadInto(window, filled', reader);
      if err == Eof {
        eof' := true;
      } else if err != NoError {
        failed := true;
        return;
      }
    }
  }

  /** Drops the first `cut` bytes of the window by moving the rest to the front. */
  method Shift(window: array<byte>, cut: nat, filled: nat, reader: Reader) returns (filled': nat)
    requires WindowHolds(window, filled, reader) && cut <= filled
    modifies window
    ensures filled' == filled - cut && WindowHolds(window, filled', reader)
  {
    ghost var was := window[..filled];
    forall k | 0 <= k < filled - cut {
      window[k] := window[cut + k];
    }
    filled' := filled - cut;
    assert window[..filled'] == was[cut..];
  }

  /** With a full window, or at the end of the data, the window's boundary is the data's. */
  lemma WindowDecides(p: Params, g: Gear, data: Bytes, from: nat, to: nat)
    requires p.Valid() && from <= to <= |data|
    requires to - from == p.max || to == |data|
    ensures Boundary(p, g, data[from..to]) == Boundary(p, g, data[from..])
  {
    hide Boundary;
    if to - from == p.max {
      assert data[from..][..p.max] == data[from..to];
      BoundaryOfFullWindow(p, g, data[from..]);
    } else {
      assert data[from..to] == data[from..];
    }
  }

  /** `done` is what has been cut of the data before `from`, a chunk's start. */
  ghost predicate CutSoFar(p: Params, g: Gear, data: Bytes, from: nat, done: seq<Bytes>)
    requires p.Valid()
  {
    from <= |data| && done + Cuts(p, g, data[from..]) == Cuts(p, g, data)
  }

  lemma CutsStep(p: Params, g: Gear, data: Bytes, from: nat, done: seq<Bytes>)
    requires p.Valid() && from < |data| && CutSoFar(p, g, data, from, done)
    ensures
      var c := Boundary(p, g, data[from..]);
      from + c <= |data| && CutSoFar(p, g, data, from + c, done + [data[from..from + c]])
  {
    hide Boundary, IsBoundary;
    var rest := data[from..];
    var c := Boundary(p, g, rest);
    BoundaryAdvances(p, g, rest);
    assert rest[..c] == data[from..from + c] && rest[c..] == data[from + c..];
    AppendFirst(done, rest[..c], Cuts(p, g, rest[c..]));
  }

  /** The next chunk, read off the window that holds bytes `from` to `to`. */
  lemma NextChunk(p: Params, g: Gear, data: Bytes, from: nat, to: nat, window: Bytes, done: seq<Bytes>)
    requires p.Valid() && from < to <= |data| && window == data[from..to]
    requires to - from == p.max || to == |data|
    requires CutSoFar(p, g, data, from, done)
    ensures
      var c := Boundary(p, g, window);
      0 < c <= |window| && CutSoFar(p, g, data, from + c, done + [window[..c]])
  {
    hide Boundary, IsBoundary, CutSoFar;
    BoundaryAdvances(p, g, window);
    WindowDecides(p, g, data, from, to);
    CutsStep(p, g, data, from, done);
    var c := Boundary(p, g, window);
    assert data[from..from + c] == window[..c];
  }

  lemma CutSoFarIsPrefix(p: Params, g: Gear, data: Bytes, from: nat, done: seq<Bytes>)
    requires p.Valid() && CutSoFar(p, g, data, from, done)
    ensures done <= Cuts(p, g, data)
    ensures from == |data| ==> done == Cuts(p, g, data)
  {
  }

  ghost predicate AllAccepted(accept: (Bytes, nat) -> bool, emitted: seq<Bytes>) {
    forall i :: 0 <= i < |emitted| ==> accept(emitted[i], i)
  }

  ghost predicate LastRejected(accept: (Bytes, nat) -> bool, emitted: seq<Bytes>) {
    var last := |emitted| - 1;
    last >= 0 && !accept(emitted[last], last) && AllAccepted(accept, emitted[..last])
  }

  lemma Judge(accept: (Bytes, nat) -> bool, emitted: seq<Bytes>, chunk: Bytes)
    requires AllAccepted(accept, emitted)
    ensures if accept(chunk, |emitted|) then AllAccepted(accept, emitted + [chunk])
            else LastRejected(accept, emitted + [chunk])
  {
    assert (emitted + [chunk])[..|emitted|] == emitted;
  }

  /** Cuts the window's first chunk and hands it over. */
  method EmitOne(p: Params, g: Gear, window: array<byte>, filled: nat, reader: Reader, emitted: seq<Bytes>,
                 accept: (Bytes, nat) -> bool)
    returns (filled': nat, emitted': seq<Bytes>, ok: bool)
    requires p.Valid() && WindowHolds(window, filled, reader) && filled > 0
    requires filled == p.max || reader.pos == |reader.data|
    requires CutSoFar(p, g, reader.data, reader.pos - filled, emitted) && AllAccepted(accept, emitted)
    modifies window
    ensures WindowHolds(window, filled', reader)
    ensures ok ==> filled' < filled && CutSoFar(p, g, reader.data, reader.pos - filled', emitted')
    ensures !ok ==> filled' == filled && emitted' <= Cuts(p, g, reader.data)
    ensures if ok then AllAccepted(accept, emitted') else LastRejected(accept, emitted')
  {
    hide Boundary, IsBoundary, CutSoFar, AllAccepted, LastRejected;
    NextChunk(p, g, reader.data, reader.pos - filled, reader.pos, window[..filled], emitted);
    var cut := FastCdcBoundary(p, g, window[..filled]);
    var chunk := window[..cut];
    assert chunk == window[..filled][..cut];
    Judge(accept, emitted, chunk);
    emitted' := emitted + [chunk];
    if !accept(chunk, |emitted|) {
      CutSoFarIsPrefix(p, g, reader.data, reader.pos - filled + cut, emitted');
      return filled, emitted', false;
    }
    filled' := Shift(window, cut, filled, reader);
    ok := true;
  }

  /** Emits the chunks that the window decides: one from a full window that will be refilled, all of
      them at the end of the data. */
  method Drain(p: Params, g: Gear, window: array<byte>, filled: nat, eof: bool, reader: Reader,
               emitted: seq<Bytes>, accept: (Bytes, nat) -> bool)
    returns (filled': nat, emitted': seq<Bytes>, ok: bool)
    requires p.Valid() && window.Length == p.max && WindowHolds(window, filled, reader)
    requires filled == window.Length || eof
    requires eof ==> reader.pos == |reader.data|
    requires CutSoFar(p, g, reader.data, reader.pos - filled, emitted)
    requires AllAccepted(accept, emitted)
    modifies window
    ensures WindowHolds(window, filled', reader) && filled' <= filled
    ensures ok ==> CutSoFar(p, g, reader.data, reader.pos - filled', emitted')
    ensures ok ==> if eof then filled' == 0 else filled' < filled
    ensures if ok then AllAccepted(accept, emitted')
            else emitted' <= Cuts(p, g, reader.data) && LastRejected(accept, emitted')
  {
    hide Boundary, IsBoundary, CutSoFar, AllAccepted, LastRejected;
    ghost var data := reader.data;
    filled', emitted', ok := filled, emitted, true;
    while filled' == window.Length || (eof && filled' > 0)
      invariant WindowHolds(window, filled', reader) && filled' <= filled
      invariant CutSoFar(p, g, data, reader.pos - filled', emitted')
      invariant AllAccepted(accept, emitted')
      invariant eof || filled' == filled
      decreases filled'
    {
      filled', emitted', ok := EmitOne(p, g, window, filled', reader, emitted', accept);
      if !ok {
        return;
      }
      if !eof {
        break; // refill the window before judging the next boundary
      }
    }
  }

  /** Reads the data and hands over the chunks one by one, each with its index. The callback accepts
      a chunk or stops the stream. */
  method StreamChunks(p: Params, g: Gear, reader: Reader, accept: (Bytes, nat) -> bool)
    returns (r: Result<(), StreamError>, emitted: seq<Bytes>)
    requires p.Valid() && reader.Valid() && reader.pos == 0
    modifies reader
    ensures r.Ok? ==> emitted == Cuts(p, g, reader.data)
    ensures emitted <= Cuts(p, g, reader.data)
    ensures if r == Err(CallbackFailed) then LastRejected(accept, emitted) else AllAccepted(accept, emitted)
    ensures Fail !in reader.script ==> r != Err(ReaderFailed)
  {
    ghost var data := reader.data;
    assert data[0..] == data;
    assert CutSoFar(p, g, data, 0, []);
    assert AllAccepted(accept, []);
    hide Boundary, IsBoundary, Cuts, CutSoFar, AllAccepted, LastRejected;
    var window := new byte[p.max];
    var filled: nat := 0;
    var eof := false;
    emitted := [];
    while true
      invariant fresh(window) && window.Length == p.max
      invariant WindowHolds(window, filled, reader)
      invariant eof ==> reader.pos == |data|
      invariant CutSoFar(p, g, data, reader.pos - filled, emitted)
      invariant AllAccepted(accept, emitted)
      decreases reader.Budget(), !eof, filled
    {
      ghost var from := reader.pos - filled;
      var failed, ok;
      filled, eof, failed := Refill(window, filled, eof, reader);
      if failed {
        CutSoFarIsPrefix(p, g, data, from, emitted);
        return Err(ReaderFailed), emitted;
      }
      if filled == 0 {
        CutSoFarIsPrefix(p, g, data, |data|, emitted);
        return Ok(()), emitted;
      }
      filled, emitted, ok := Drain(p, g, window, filled, eof, reader, emitted, accept);
      if !ok {
        return Err(CallbackFailed), emitted;
      }
      if eof && filled == 0 {
        CutSoFarIsPrefix(p, g, data, |data|, emitted);
        return Ok(()), emitted;
      }
    }
  }
}
