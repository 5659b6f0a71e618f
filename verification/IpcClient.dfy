/** The client's receive loop: response frames are cut out of a byte stream that arrives in
    arbitrary chunks. */
module IpcClient {
  import opened Wrappers
  import opened Text
  import opened Protocol

  /** Position of the first empty line end, "\n\n". */
  function FindBlank(s: string): (r: Option<nat>)
    ensures r.Some? ==> r.value + 2 <= |s| && s[r.value] == '\n' && s[r.value + 1] == '\n'
  {
    if |s| < 2 then None
    else if s[0] == '\n' && s[1] == '\n' then Some(0)
    else
      match FindBlank(s[1..])
      case None => None
      case Some(k) => Some(k + 1)
  }

  /** How far a stream got: still waiting with unconsumed input, the final response, or a
      frame the parser rejects. */
  datatype Outcome = Waiting(rest: string) | Final(response: Response) | Malformed

  datatype Receipt = Receipt(progress: seq<Response>, outcome: Outcome)

  function ParseFrame(frame: string): Option<Response> {
    ResponseOf(KeyValues(Lines(frame), map[]))
  }

  function Then(progress: seq<Response>, r: Receipt): Receipt {
    Receipt(progress + r.progress, r.outcome)
  }

  /** Meaning of the extraction loop on a buffer: progress frames are delivered in order up to
      the first other frame. */
  function Drain(buffer: string): Receipt
    decreases |buffer|
  {
    match FindBlank(buffer)
    case None => Receipt([], Waiting(buffer))
    case Some(pos) =>
      match ParseFrame(buffer[..pos + 2])
      case None => Receipt([], Malformed)
      case Some(chunk) =>
        if chunk.status.Progress? then Then([chunk], Drain(buffer[pos + 2..]))
        else Receipt([], Final(chunk))
  }

  lemma {:induction false} FindBlankAppend(s: string, more: string)
    requires FindBlank(s).Some?
    ensures FindBlank(s + more) == FindBlank(s)
  {
    if !(s[0] == '\n' && s[1] == '\n') {
      FindBlankAppend(s[1..], more);
      assert (s + more)[1..] == s[1..] + more;
    }
  }

  /** One frame at the front of the buffer. */
  lemma DrainFrame(frame: string, rest: string)
    requires |frame| >= 2 && FindBlank(frame + rest) == Some(|frame| - 2)
    ensures Drain(frame + rest) ==
            match ParseFrame(frame)
            case None => Receipt([], Malformed)
            case Some(chunk) =>
              if chunk.status.Progress? then Then([chunk], Drain(rest)) else Receipt([], Final(chunk))
  {
    hide FindBlank, ParseFrame;
    assert (frame + rest)[..|frame|] == frame && (frame + rest)[|frame|..] == rest;
  }

  lemma DrainWaits(buffer: string, more: Receipt)
    ensures FindBlank(buffer).None? ==> Drain(buffer) == Receipt([], Waiting(buffer))
    ensures Then([], more) == more
  {
    hide FindBlank, ParseFrame;
    assert [] + more.progress == more.progress;
  }

  /** More input only continues where the loop was waiting. */
  lemma {:induction false} DrainAppend(buffer: string, more: string)
    ensures var d := Drain(buffer);
            Drain(buffer + more) == if d.outcome.Waiting? then Then(d.progress, Drain(d.outcome.rest + more)) else d
    decreases |buffer|
  {
    hide FindBlank, Drain, ParseFrame;
    DrainWaits(buffer, Drain(buffer + more));
    match FindBlank(buffer)
    case None =>
    case Some(pos) =>
      FindBlankAppend(buffer, more);
      var frame, rest := buffer[..pos + 2], buffer[pos + 2..];
      assert buffer == frame + rest;
      ConcatAssoc(frame, rest, more);
      DrainFrame(frame, rest);
      DrainFrame(frame, rest + more);
      DrainAppend(rest, more);
      var e := Drain(rest);
      if e.outcome.Waiting? && ParseFrame(frame).Some? {
        ThenThen([ParseFrame(frame).value], e.progress, Drain(e.outcome.rest + more));
      }
  }

  // ----- the loop -----

  function Concat(chunks: seq<string>): string {
    if chunks == [] then "" else Concat(chunks[..|chunks| - 1]) + chunks[|chunks| - 1]
  }

  /** Result of one pass of the inner loop over the buffer. */
  method ExtractFrames(buffer0: string) returns (progress: seq<Response>, outcome: Outcome)
    ensures Receipt(progress, outcome) == Drain(buffer0)
  {
    hide ParseFrame;
    progress := [];
    var buffer := buffer0;
    while true
      invariant Drain(buffer0) == Then(progress, Drain(buffer))
      decreases |buffer|
    {
      match FindBlank(buffer) {
        case None =>
          return progress, Waiting(buffer);
        case Some(pos) =>
          var frame := buffer[..pos + 2];
          buffer := buffer[pos + 2..];
          ParseFrameIs(frame);
          var chunk := ParseResponse(frame);
          if chunk.None? {
            return progress, Malformed;
          }
          if chunk.value.status.Progress? {
            ThenThen(progress, [chunk.value], Drain(buffer));
            progress := progress + [chunk.value];
          } else {
            return progress, Final(chunk.value);
          }
      }
    }
  }

  lemma ParseFrameIs(frame: string)
    ensures ParseFrame(frame) == ResponseOf(KeyValues(Lines(frame), map[]))
  {
  }

  lemma ThenThen(a: seq<Response>, b: seq<Response>, r: Receipt)
    ensures Then(a, Then(b, r)) == Then(a + b, r)
  {
    assert a + (b + r.progress) == (a + b) + r.progress;
  }

  /** The reading part of sendRequest: `chunks` are the non-empty results of read() up to end
      of file. Progress frames go to the handler; the first other frame is the result. */
  method ReceiveResponse(chunks: seq<string>) returns (delivered: seq<Response>, result: Option<Response>)
    requires forall c :: c in chunks ==> c != ""
    ensures var r := Drain(Concat(chunks));
            && delivered == r.progress
            && result == if r.outcome.Final? then Some(r.outcome.response) else None
  {
    hide Drain;
    delivered := [];
    var buffer := "";
    NothingToDrain();
    var i := 0;
    while i < |chunks|
      invariant 0 <= i <= |chunks|
      invariant Drain(Concat(chunks[..i])) == Receipt(delivered, Waiting(buffer))
    {
      ConcatNext(chunks, i);
      DrainAppend(Concat(chunks[..i]), chunks[i]);
      buffer := buffer + chunks[i];
      i := i + 1;
      var progress, outcome := ExtractFrames(buffer);
      delivered := delivered + progress;
      match outcome {
        case Waiting(rest) =>
          buffer := rest;
        case Final(response) =>
          RestIsIgnored(chunks, i);
          return delivered, Some(response);
        case Malformed =>
          RestIsIgnored(chunks, i);
          return delivered, None;
      }
    }
    assert chunks[..i] == chunks;
    return delivered, None;
  }

  lemma NothingToDrain()
    ensures Drain(Concat([])) == Receipt([], Waiting(""))
  {
  }

  lemma ConcatNext(chunks: seq<string>, i: nat)
    requires i < |chunks|
    ensures Concat(chunks[..i + 1]) == Concat(chunks[..i]) + chunks[i]
  {
    assert chunks[..i + 1][..i] == chunks[..i];
  }

  /** Once the outcome is decided, later chunks change nothing. */
  lemma {:induction false} RestIsIgnored(chunks: seq<string>, i: nat)
    requires i <= |chunks| && !Drain(Concat(chunks[..i])).outcome.Waiting?
    ensures Drain(Concat(chunks)) == Drain(Concat(chunks[..i]))
    decreases |chunks| - i
  {
    hide Drain, Concat;
    if i == |chunks| {
      assert chunks[..i] == chunks;
    } else {
      ConcatNext(chunks, i);
      DrainAppend(Concat(chunks[..i]), chunks[i]);
      RestIsIgnored(chunks, i + 1);
    }
  }

  // ----- what a server sends -----

  lemma {:induction false} BlankBehind(l: string, t: string)
    requires '\n' !in l && t != "" && t[0] != '\n'
    ensures FindBlank(l + "\n" + t) == match FindBlank(t) case None => None case Some(k) => Some(|l| + 1 + k)
  {
    var s := l + "\n" + t;
    if l == "" {
      assert s[1..] == t;
    } else {
      assert s[1..] == l[1..] + "\n" + t;
      BlankBehind(l[1..], t);
    }
  }

  lemma {:induction false} BlankHere(l: string, t: string)
    requires '\n' !in l
    ensures FindBlank(l + "\n" + ("\n" + t)) == Some(|l|)
  {
    var s := l + "\n" + ("\n" + t);
    if l != "" {
      assert s[1..] == l[1..] + "\n" + ("\n" + t);
      BlankHere(l[1..], t);
    }
  }

  lemma LinesShape(ls: seq<string>, more: string)
    requires ls != [] && forall l :: l in ls ==> l != "" && '\n' !in l
    ensures Unlines(ls) + more == ls[0] + "\n" + (Unlines(ls[1..]) + more)
    ensures |Unlines(ls)| == |ls[0]| + 1 + |Unlines(ls[1..])|
    ensures (Unlines(ls) + more)[0] != '\n' && '\n' !in ls[0]
  {
    assert ls[0] in ls && ls[0][0] in ls[0];
  }

  lemma NoLinesShape(more: string)
    ensures Unlines([]) == "" && Unlines([]) + more == more
  {
  }

  /** The first blank line of a frame is its last line, whatever follows. */
  lemma {:induction false} BlankEndsFrame(ls: seq<string>, more: string)
    requires ls != [] && forall l :: l in ls ==> l != "" && '\n' !in l
    ensures FindBlank(Unlines(ls) + ("\n" + more)) == Some(|Unlines(ls)| - 1)
  {
    hide FindBlank, Unlines;
    var tail := Unlines(ls[1..]) + ("\n" + more);
    assert forall l :: l in ls[1..] ==> l in ls;
    LinesShape(ls, "\n" + more);
    if |ls| == 1 {
      assert ls[1..] == [];
      NoLinesShape("\n" + more);
      BlankHere(ls[0], more);
    } else {
      BlankEndsFrame(ls[1..], more);
      LinesShape(ls[1..], "\n" + more);
      BlankBehind(ls[0], tail);
    }
  }

  /** A response together with the order its fields are written in. */
  datatype Message = Message(response: Response, order: seq<string>)

  ghost predicate Sendable(m: Message) {
    WellFormed(m.response) && Enumerates(m.order, m.response.rawFields)
  }

  ghost function Encode(m: Message): string
    requires Sendable(m)
  {
    Frame(Written(m.response, m.order))
  }

  ghost function Stream(ms: seq<Message>): string
    requires forall m :: m in ms ==> Sendable(m)
  {
    if ms == [] then "" else Encode(ms[0]) + Stream(ms[1..])
  }

  lemma FrameEnds(ps: Pairs, more: string)
    requires ps != [] && Legal(ps)
    ensures var e := Frame(ps); |e| >= 2 && FindBlank(e + more) == Some(|e| - 2)
  {
    hide FindBlank, PairLines, Legal, Unlines;
    var ls := PairLines(ps);
    PairLinesAreLines(ps);
    UnlinesNonEmpty(ls);
    BlankEndsFrame(ls, more);
    ConcatAssoc(Unlines(ls), "\n", more);
  }

  /** The first frame cut out of an encoded message and what follows is that message. */
  lemma FirstFrame(m: Message, more: string)
    requires Sendable(m)
    ensures var e := Encode(m);
            |e| >= 2 && FindBlank(e + more) == Some(|e| - 2) && ParseFrame(e) == Some(m.response)
  {
    hide FindBlank, Frame, Legal, WellFormed, KeyValues, Lines, ResponseOf;
    WrittenIsLegal(m.response, m.order);
    FrameEnds(Written(m.response, m.order), more);
    ResponseRoundTrip(m.response, m.order);
  }

  lemma UnlinesNonEmpty(ls: seq<string>)
    requires ls != []
    ensures Unlines(ls) != ""
  {
  }

  function Responses(ms: seq<Message>): seq<Response> {
    seq(|ms|, i requires 0 <= i < |ms| => ms[i].response)
  }

  lemma ResponsesCons(ms: seq<Message>)
    requires ms != []
    ensures Responses(ms) == [ms[0].response] + Responses(ms[1..])
  {
  }

  lemma StreamCons(ms: seq<Message>)
    requires forall m :: m in ms ==> Sendable(m)
    ensures if ms == [] then Stream(ms) == "" && Responses(ms) == []
            else (forall m :: m in ms[1..] ==> m in ms) && Stream(ms) == Encode(ms[0]) + Stream(ms[1..])
  {
    hide Encode, Sendable;
  }

  /** Progress messages followed by one other message are delivered as sent, in order, and
      anything after them is ignored. */
  lemma {:induction false} StreamIsDelivered(progress: seq<Message>, last: Message, more: string)
    requires forall m :: m in progress ==> Sendable(m) && m.response.status.Progress?
    requires Sendable(last) && !last.response.status.Progress?
    ensures Drain(Stream(progress) + (Encode(last) + more)) == Receipt(Responses(progress), Final(last.response))
  {
    hide FindBlank, ParseFrame, Encode, Sendable, Drain, Stream, Responses;
    StreamCons(progress);
    if progress == [] {
      assert "" + (Encode(last) + more) == Encode(last) + more;
      FirstFrame(last, more);
      DrainFrame(Encode(last), more);
    } else {
      var m := progress[0];
      assert m in progress && forall x :: x in progress[1..] ==> x in progress;
      var rest := Stream(progress[1..]) + (Encode(last) + more);
      FirstFrame(m, rest);
      DrainFrame(Encode(m), rest);
      StreamIsDelivered(progress[1..], last, more);
      ConcatAssoc(Encode(m), Stream(progress[1..]), Encode(last) + more);
      ResponsesCons(progress);
    }
  }

  /** The client delivers exactly the messages sent, for every way the stream is cut into
      chunks. */
  method Receive(progress: seq<Message>, last: Message, chunks: seq<string>)
    returns (delivered: seq<Response>, result: Option<Response>)
    requires forall m :: m in progress ==> Sendable(m) && m.response.status.Progress?
    requires Sendable(last) && !last.response.status.Progress?
    requires (forall c :: c in chunks ==> c != "") && Stream(progress) + Encode(last) <= Concat(chunks)
    ensures delivered == Responses(progress) && result == Some(last.response)
  {
    ghost var sent := Stream(progress) + Encode(last);
    ghost var more := Concat(chunks)[|sent|..];
    assert Concat(chunks) == sent + more == Stream(progress) + (Encode(last) + more);
    StreamIsDelivered(progress, last, more);
    delivered, result := ReceiveResponse(chunks);
  }
}
