/** Recording a body while it streams past (cli/proxy_proxify.go:418-508), and reading the record back
    (cli/web_index.go:939-948, cli/web_export.go:350-365). */
module BodyCapture {
  import opened Bytes
  import opened Captures
  import Base64
  import Utf8

  /** What the wrapped body answers to one Read or one Close. The split into reads is arbitrary. */
  datatype Status = Fine | Eof | Broken(message: string)

  datatype Op = Read(chunk: seq<Byte>, status: Status) | Close(error: Option<string>)

  datatype State = State(buffer: seq<Byte>, totalRead: nat, reachedEof: bool, readError: string,
    reported: Option<Payload>)

  const START := State([], 0, false, "", None)

  function SetData(declaredSize: int, data: seq<Byte>): Payload {
    if data == [] then Payload(declaredSize, 0, "", [], false, "")
    else if Utf8.Valid(data) then Payload(declaredSize, |data|, "utf8", data, false, "")
    else Payload(declaredSize, |data|, "base64", Base64.Encode(data, false, true), false, "")
  }

  function PayloadOf(s: State, declaredSize: int): Payload {
    var p := SetData(declaredSize, s.buffer);
    p.(readError := s.readError,
       truncated :=
         if declaredSize >= 0 then declaredSize > p.capturedSize
         else !s.reachedEof || s.totalRead > p.capturedSize)
  }

  function Report(s: State, declaredSize: int): State {
    if s.reported == None then s.(reported := Some(PayloadOf(s, declaredSize))) else s
  }

  function First(s: seq<Byte>, n: int): seq<Byte> {
    if n <= 0 then [] else if n < |s| then s[..n] else s
  }

  function After(s: State, op: Op, declaredSize: int, maxBytes: int): State {
    match op
    case Read(chunk, status) =>
      var s' := s.(
        totalRead := s.totalRead + |chunk|,
        buffer := s.buffer + First(chunk, maxBytes - |s.buffer|),
        reachedEof := s.reachedEof || status.Eof?,
        readError := if status.Broken? then status.message else s.readError);
      if status.Fine? then s' else Report(s', declaredSize)
    case Close(error) =>
      Report(if error != None && s.readError == "" then s.(readError := error.value) else s, declaredSize)
  }

  function AfterAll(ops: seq<Op>, declaredSize: int, maxBytes: int): State {
    if ops == [] then START
    else After(AfterAll(ops[..|ops| - 1], declaredSize, maxBytes), ops[|ops| - 1], declaredSize, maxBytes)
  }

  class CapturingReadCloser {
    const declaredSize: int
    const maxBytes: int
    var buffer: seq<Byte>
    var totalRead: nat
    var reachedEof: bool
    var readError: string
    /** The calls of the completion callback, in order. */
    var calls: seq<Payload>
    var done: bool
    ghost var ops: seq<Op>

    ghost function Now(): State
      reads this
    {
      State(buffer, totalRead, reachedEof, readError, if calls == [] then None else Some(calls[0]))
    }

    ghost predicate Valid()
      reads this
    {
      && AfterAll(ops, declaredSize, maxBytes) == Now()
      && |calls| <= 1 && (done <==> calls != [])
    }

    constructor (declaredSize: int, maxBytes: int)
      ensures Valid() && ops == [] && this.declaredSize == declaredSize && this.maxBytes == maxBytes
    {
      this.declaredSize, this.maxBytes := declaredSize, maxBytes;
      buffer, totalRead, reachedEof, readError, calls, done, ops := [], 0, false, "", [], false, [];
    }

    /** The wrapped source answers `chunk` and `status`; the caller gets exactly that. */
    method Read(chunk: seq<Byte>, status: Status) returns (got: seq<Byte>, result: Status)
      requires Valid()
      modifies this
      ensures Valid() && ops == old(ops) + [Op.Read(chunk, status)]
      ensures got == chunk && result == status
    {
      hide PayloadOf, AfterAll;
      AfterOneMore(ops, Op.Read(chunk, status), declaredSize, maxBytes);
      got, result := chunk, status;
      totalRead := totalRead + |chunk|;
      var remaining := maxBytes - |buffer|;
      if remaining > 0 && |chunk| > 0 {
        var captureCount := |chunk|;
        if captureCount > remaining {
          captureCount := remaining;
        }
        buffer := buffer + chunk[..captureCount];
      }
      assert buffer == old(buffer) + First(chunk, maxBytes - |old(buffer)|);
      hide First;
      if status.Eof? {
        reachedEof := true;
      } else if status.Broken? {
        readError := status.message;
      }
      ops := ops + [Op.Read(chunk, status)];
      if !status.Fine? {
        Complete();
      }
    }

    method Close(error: Option<string>) returns (result: Option<string>)
      requires Valid()
      modifies this
      ensures Valid() && ops == old(ops) + [Op.Close(error)] && result == error
    {
      hide PayloadOf, AfterAll, First;
      AfterOneMore(ops, Op.Close(error), declaredSize, maxBytes);
      result := error;
      if error != None {
        if readError == "" {
          readError := error.value;
        }
      }
      ops := ops + [Op.Close(error)];
      Complete();
    }

    /** The callback runs at most once. */
    method Complete()
      requires |calls| <= 1 && (done <==> calls != [])
      modifies this`calls, this`done
      ensures done && |calls| == 1
      ensures Now() == Report(old(Now()), declaredSize)
    {
      if !done {
        calls := calls + [PayloadOf(State(buffer, totalRead, reachedEof, readError, None), declaredSize)];
        done := true;
        PayloadIgnoresReported(old(Now()), declaredSize);
      }
    }
  }

  lemma AfterOneMore(ops: seq<Op>, op: Op, declaredSize: int, maxBytes: int)
    ensures AfterAll(ops + [op], declaredSize, maxBytes)
      == After(AfterAll(ops, declaredSize, maxBytes), op, declaredSize, maxBytes)
  {
    hide After;
    assert (ops + [op])[..|ops|] == ops;
  }

  /** The payload does not depend on what was reported before. */
  lemma PayloadIgnoresReported(s: State, declaredSize: int)
    ensures PayloadOf(s.(reported := None), declaredSize) == PayloadOf(s, declaredSize)
  {
    hide SetData;
  }

  // ----- over whole runs -----

  function Delivered(ops: seq<Op>): seq<Byte> {
    if ops == [] then []
    else
      var front, last := Delivered(ops[..|ops| - 1]), ops[|ops| - 1];
      if last.Read? then front + last.chunk else front
  }

  predicate Ends(op: Op) {
    op.Close? || !op.status.Fine?
  }

  predicate SawEof(ops: seq<Op>) {
    exists op | op in ops :: op.Read? && op.status.Eof?
  }

  /** After any reads and closes the buffer holds the first bytes of the body, as many as allowed. */
  lemma {:induction false} BufferIsPrefix(ops: seq<Op>, declaredSize: int, maxBytes: int)
    ensures
      var s := AfterAll(ops, declaredSize, maxBytes);
      && s.buffer == First(Delivered(ops), maxBytes)
      && s.totalRead == |Delivered(ops)|
      && (s.reachedEof <==> SawEof(ops))
    decreases |ops|
  {
    if ops == [] {
      NothingRead();
    } else {
      hide *;
      var front, last := ops[..|ops| - 1], ops[|ops| - 1];
      BufferIsPrefix(front, declaredSize, maxBytes);
      assert ops == front + [last];
      LastOp(front, last, declaredSize, maxBytes);
      StateAfter(AfterAll(front, declaredSize, maxBytes), last, declaredSize, maxBytes);
      FirstGrows(Delivered(front), ChunkOf(last), maxBytes);
    }
  }

  function ChunkOf(op: Op): seq<Byte> {
    if op.Read? then op.chunk else []
  }

  lemma NothingRead()
    ensures Delivered([]) == [] && !SawEof([])
  {
  }

  lemma LastOp(front: seq<Op>, last: Op, declaredSize: int, maxBytes: int)
    ensures AfterAll(front + [last], declaredSize, maxBytes)
      == After(AfterAll(front, declaredSize, maxBytes), last, declaredSize, maxBytes)
    ensures Delivered(front + [last]) == Delivered(front) + ChunkOf(last)
    ensures SawEof(front + [last]) <==> SawEof(front) || (last.Read? && last.status.Eof?)
  {
    hide After;
    assert (front + [last])[..|front|] == front && last in front + [last];
  }

  lemma StateAfter(s: State, op: Op, declaredSize: int, maxBytes: int)
    ensures
      var s' := After(s, op, declaredSize, maxBytes);
      && s'.buffer == s.buffer + First(ChunkOf(op), maxBytes - |s.buffer|)
      && s'.totalRead == s.totalRead + |ChunkOf(op)|
      && (s'.reachedEof <==> s.reachedEof || (op.Read? && op.status.Eof?))
  {
    hide PayloadOf;
  }

  lemma FirstGrows(a: seq<Byte>, b: seq<Byte>, n: int)
    ensures First(a + b, n) == First(a, n) + First(b, n - |First(a, n)|)
  {
  }

  /** The record is reported exactly once: by the first Read that does not go on or the first Close, and
      it describes what had streamed past by then. */
  lemma {:induction false} ReportedAtFirstEnd(ops: seq<Op>, k: nat, declaredSize: int, maxBytes: int)
    requires k < |ops| && Ends(ops[k]) && forall i | 0 <= i < k :: !Ends(ops[i])
    ensures AfterAll(ops[..k], declaredSize, maxBytes).reported == None
    ensures
      var s := AfterAll(ops[..k + 1], declaredSize, maxBytes);
      AfterAll(ops, declaredSize, maxBytes).reported == Some(PayloadOf(s, declaredSize)) == s.reported
    decreases |ops|
  {
    hide PayloadOf, First;
    NotReportedYet(ops[..k], declaredSize, maxBytes);
    if k == |ops| - 1 {
      assert ops[..k + 1] == ops && ops[..|ops| - 1] == ops[..k];
      ReportIgnoresReported(AfterAll(ops[..k], declaredSize, maxBytes), ops[k], declaredSize, maxBytes);
    } else {
      var front := ops[..|ops| - 1];
      ReportedAtFirstEnd(front, k, declaredSize, maxBytes);
      assert front[..k] == ops[..k] && front[..k + 1] == ops[..k + 1];
    }
  }

  lemma ReportIgnoresReported(s: State, op: Op, declaredSize: int, maxBytes: int)
    requires Ends(op) && s.reported == None
    ensures
      var s' := After(s, op, declaredSize, maxBytes);
      s'.reported == Some(PayloadOf(s', declaredSize))
  {
  }

  lemma {:induction false} NotReportedYet(ops: seq<Op>, declaredSize: int, maxBytes: int)
    requires forall op | op in ops :: !Ends(op)
    ensures AfterAll(ops, declaredSize, maxBytes).reported == None
    decreases |ops|
  {
    hide PayloadOf, First;
    if ops != [] {
      assert ops[|ops| - 1] in ops;
      NotReportedYet(ops[..|ops| - 1], declaredSize, maxBytes);
    }
  }

  // ----- reading the record back -----

  function PayloadBytes(p: Payload): Option<seq<Byte>> {
    if p.encoding == "" || p.encoding == "utf8" then Some(p.data)
    else if p.encoding == "base64" then Base64.DecodeStd(p.data)
    else None
  }

  predicate Incomplete(p: Payload) {
    || p.truncated || p.readError != ""
    || p.declaredSize > p.capturedSize
    || (p.capturedSize > 0 && p.data == [])
    || match PayloadBytes(p)
       case None => true
       case Some(bytes) => |bytes| != p.capturedSize
  }

  /** Whatever was captured, text or not, is read back byte for byte. */
  lemma ReadsBack(s: State, declaredSize: int)
    ensures PayloadBytes(PayloadOf(s, declaredSize)) == Some(s.buffer)
    ensures PayloadOf(s, declaredSize).capturedSize == |s.buffer|
  {
    hide Utf8.Valid;
    Base64.RoundTripStd(s.buffer);
    hide Base64.Encode, Base64.DecodeStd;
  }

  /** For records made here, the export's long check comes down to the two flags. */
  lemma IncompleteIff(s: State, declaredSize: int)
    ensures
      var p := PayloadOf(s, declaredSize);
      Incomplete(p) <==> p.truncated || p.readError != ""
  {
    ReadsBack(s, declaredSize);
    Base64.RoundTripStd(s.buffer);
    hide Utf8.Valid, Base64.Encode, Base64.DecodeStd;
  }

  /** A record that is not marked incomplete holds the whole body: all that streamed past before the
      end, when no length was declared, and otherwise at least the declared number of bytes. */
  lemma CompleteIsWhole(ops: seq<Op>, declaredSize: int, maxBytes: int)
    requires
      var p := PayloadOf(AfterAll(ops, declaredSize, maxBytes), declaredSize);
      !Incomplete(p)
    ensures
      var bytes := PayloadBytes(PayloadOf(AfterAll(ops, declaredSize, maxBytes), declaredSize)).value;
      && PayloadBytes(PayloadOf(AfterAll(ops, declaredSize, maxBytes), declaredSize)).Some?
      && bytes <= Delivered(ops)
      && (declaredSize < 0 ==> bytes == Delivered(ops) && SawEof(ops))
      && (declaredSize >= 0 ==> |bytes| >= declaredSize)
  {
    var s := AfterAll(ops, declaredSize, maxBytes);
    BufferIsPrefix(ops, declaredSize, maxBytes);
    ReadsBack(s, declaredSize);
    IncompleteIff(s, declaredSize);
    hide AfterAll, Incomplete, PayloadBytes, SawEof, SetData;
    SetDataSize(declaredSize, s.buffer);
  }

  // ----- the record of a run, from its reads and closes alone -----

  /** The error text a read or a close ends with. */
  function ErrorText(op: Op): string {
    match op
    case Read(_, Broken(message)) => message
    case Close(Some(message)) => message
    case _ => ""
  }

  /** All of the body that there is to capture has been captured: the declared length when there is one,
      and otherwise everything up to the end that was seen. */
  predicate HoldsAll(delivered: seq<Byte>, sawEof: bool, declaredSize: int, maxBytes: int) {
    if declaredSize >= 0 then declaredSize <= |delivered| && (declaredSize <= maxBytes || declaredSize == 0)
    else sawEof && (|delivered| <= maxBytes || delivered == [])
  }

  lemma {:induction false} NoErrorBefore(ops: seq<Op>, declaredSize: int, maxBytes: int)
    requires forall op | op in ops :: !Ends(op)
    ensures AfterAll(ops, declaredSize, maxBytes).readError == ""
    decreases |ops|
  {
    hide PayloadOf, First;
    if ops != [] {
      assert ops[|ops| - 1] in ops;
      NoErrorBefore(ops[..|ops| - 1], declaredSize, maxBytes);
    }
  }

  lemma ErrorAfter(s: State, op: Op, declaredSize: int, maxBytes: int)
    requires s.readError == "" && Ends(op)
    ensures After(s, op, declaredSize, maxBytes).readError == ErrorText(op)
  {
    hide PayloadOf;
  }

  lemma FirstHoldsAll(delivered: seq<Byte>, sawEof: bool, declaredSize: int, maxBytes: int)
    ensures HoldsAll(delivered, sawEof, declaredSize, maxBytes) <==>
      if declaredSize >= 0 then |First(delivered, maxBytes)| >= declaredSize
      else sawEof && First(delivered, maxBytes) == delivered
  {
  }

  lemma PayloadFields(s: State, declaredSize: int)
    ensures
      var p := PayloadOf(s, declaredSize);
      && p.declaredSize == declaredSize && p.capturedSize == |s.buffer| && p.readError == s.readError
      && (p.encoding == "utf8" <==> s.buffer != [] && Utf8.Valid(s.buffer))
      && (p.truncated <==> if declaredSize >= 0 then |s.buffer| < declaredSize
                           else !s.reachedEof || |s.buffer| < s.totalRead)
  {
    hide Utf8.Valid, Base64.Encode;
  }

  /** The record that is reported, from what was read and how it ended: its bytes are the first ones of
      the body, it carries the error of the operation that ended it, and it counts as complete if and
      only if there was no error and it holds all there is to capture. */
  lemma RecordOfRun(ops: seq<Op>, k: nat, declaredSize: int, maxBytes: int)
    requires k < |ops| && Ends(ops[k]) && forall i | 0 <= i < k :: !Ends(ops[i])
    ensures
      var delivered := Delivered(ops[..k + 1]);
      var reported := AfterAll(ops, declaredSize, maxBytes).reported;
      && reported.Some?
      && var p := reported.value;
      && p.declaredSize == declaredSize && p.readError == ErrorText(ops[k])
      && PayloadBytes(p) == Some(First(delivered, maxBytes)) && p.capturedSize == |First(delivered, maxBytes)|
      && (p.encoding == "utf8" <==> First(delivered, maxBytes) != [] && Utf8.Valid(First(delivered, maxBytes)))
      && (!p.truncated <==> HoldsAll(delivered, SawEof(ops[..k + 1]), declaredSize, maxBytes))
      && (!Incomplete(p) <==>
            ErrorText(ops[k]) == "" && HoldsAll(delivered, SawEof(ops[..k + 1]), declaredSize, maxBytes))
  {
    var run := ops[..k + 1];
    var s := AfterAll(run, declaredSize, maxBytes);
    assert run == ops[..k] + [ops[k]];
    hide *;
    ReportedAtFirstEnd(ops, k, declaredSize, maxBytes);
    BufferIsPrefix(run, declaredSize, maxBytes);
    ReadsBack(s, declaredSize);
    IncompleteIff(s, declaredSize);
    PayloadFields(s, declaredSize);
    NoErrorBefore(ops[..k], declaredSize, maxBytes);
    AfterOneMore(ops[..k], ops[k], declaredSize, maxBytes);
    ErrorAfter(AfterAll(ops[..k], declaredSize, maxBytes), ops[k], declaredSize, maxBytes);
    FirstHoldsAll(Delivered(run), SawEof(run), declaredSize, maxBytes);
    FirstIsAll(Delivered(run), maxBytes);
  }

  /** A body's way through the proxy: what was read and how it ended, at operation `last`. */
  datatype Passage = Passage(ops: seq<Op>, last: nat, declaredSize: int, maxBytes: int)

  predicate HasEnded(b: Passage) {
    b.last < |b.ops| && Ends(b.ops[b.last]) && forall i | 0 <= i < b.last :: !Ends(b.ops[i])
  }

  /** The record that is reported for it. */
  function Recorded(b: Passage): Option<Payload> {
    AfterAll(b.ops, b.declaredSize, b.maxBytes).reported
  }

  /** It passed without an error, and all there was to capture was captured. */
  predicate CapturedWhole(b: Passage)
    requires HasEnded(b)
  {
    var seen := b.ops[..b.last + 1];
    ErrorText(b.ops[b.last]) == "" && HoldsAll(Delivered(seen), SawEof(seen), b.declaredSize, b.maxBytes)
  }

  lemma RecordedIncompleteIff(b: Passage)
    requires HasEnded(b)
    ensures Recorded(b).Some? && (Incomplete(Recorded(b).value) <==> !CapturedWhole(b))
  {
    RecordOfRun(b.ops, b.last, b.declaredSize, b.maxBytes);
    hide AfterAll, Incomplete, HoldsAll, Delivered, SawEof, PayloadBytes;
  }

  lemma FirstIsAll(delivered: seq<Byte>, maxBytes: int)
    ensures First(delivered, maxBytes) == delivered <==> |First(delivered, maxBytes)| >= |delivered|
  {
  }

  lemma SetDataSize(declaredSize: int, data: seq<Byte>)
    ensures SetData(declaredSize, data).capturedSize == |data|
  {
    hide Utf8.Valid, Base64.Encode;
  }
}
