/**
  The node's behaviour in `main`: the first line is read as an `init`
  message and answered with `init_ok`; every later line is read as an `echo`
  message and answered with `echo_ok`. Each reply swaps `src` and `dest`.
  There is no dispatch on the `"type"` value, no error reply, no outbound id
  counter and no stored node identity.

  A failed `unwrap` ends the process: here it ends the session with
  `completed == false`, after the replies already written.
 */
module Node {
  import opened Wrappers
  import opened Json
  import opened Envelope
  import Wire

  /** The `init_ok` record built from an `init` request. */
  function InitOkReply(req: Message): Message
    requires req.body.payload.Init?
  {
    Message(req.dest, req.src, Body(None, req.body.msgId, InitOk("init_ok")))
  }

  /**
    The `echo_ok` record built from an `echo` request; `None` when the request
    carries no `msg_id`, where `unwrap` panics.
   */
  function EchoOkReply(req: Message): Option<Message>
    requires req.body.payload.Echo?
  {
    match req.body.msgId
    case None => None
    case Some(id) => Some(Message(req.dest, req.src, Body(Some(id), Some(id), Echo("echo_ok", req.body.payload.echo))))
  }

  /**
    The `init_ok` reply, read back from the object written for it: endpoints
    swapped, type `init_ok`, `in_reply_to` the request's `msg_id` (null when it
    had none) and `msg_id` written as null.
   */
  lemma InitOkOnTheWire(req: Message)
    requires req.body.payload.Init?
    ensures
      var j := EncodeMessage(InitOkReply(req));
      var r := DecodeMessage(j, InitOkKind);
      && r.Ok?
      && r.value.src == req.dest && r.value.dest == req.src
      && r.value.body.payload.typ == "init_ok"
      && r.value.body.inReplyTo == req.body.msgId
      && r.value.body.msgId == None
      && Find(j.members[2].1.members, "msg_id") == Present(JNull)
      && (req.body.msgId == None ==> Find(j.members[2].1.members, "in_reply_to") == Present(JNull))
  {
    var reply := InitOkReply(req);
    MessageRoundTrip(reply);
    FlattenedBody(reply.body);
  }

  /**
    The `init_ok` reply depends on the request's `src`, `dest` and `msg_id`
    only: `node_id`, `node_ids`, the `"type"` value and `in_reply_to` are read
    and dropped.
   */
  lemma InitOkIgnoresPayload(a: Message, b: Message)
    requires a.body.payload.Init? && b.body.payload.Init?
    requires a.src == b.src && a.dest == b.dest && a.body.msgId == b.body.msgId
    ensures InitOkReply(a) == InitOkReply(b)
  {
  }

  /**
    The `echo_ok` reply, read back from the object written for it: endpoints
    swapped, type `echo_ok`, the request's `echo` text unchanged, and both
    `in_reply_to` and `msg_id` equal to the request's `msg_id`. A request
    without `msg_id` gets no reply.
   */
  lemma EchoOkOnTheWire(req: Message)
    requires req.body.payload.Echo?
    ensures EchoOkReply(req).None? <==> req.body.msgId.None?
    ensures EchoOkReply(req).Some? ==>
      var r := DecodeMessage(EncodeMessage(EchoOkReply(req).value), EchoKind);
      && r.Ok?
      && r.value.src == req.dest && r.value.dest == req.src
      && r.value.body.payload == Echo("echo_ok", req.body.payload.echo)
      && r.value.body.inReplyTo == req.body.msgId
      && r.value.body.msgId == req.body.msgId
  {
    if req.body.msgId.Some? {
      MessageRoundTrip(EchoOkReply(req).value);
    }
  }

  /** `line` is answered, as the first line, by the `init_ok` line `reply`. */
  predicate AnswersInit(line: Option<Json>, reply: string)
  {
    var req := ParseMessage(line, InitKind);
    req.Ok? && reply == Wire.Line(EncodeMessage(InitOkReply(req.value)))
  }

  /** `line` is answered, as a later line, by the `echo_ok` line `reply`. */
  predicate AnswersEcho(line: Option<Json>, reply: string)
  {
    var req := ParseMessage(line, EchoKind);
    && req.Ok?
    && EchoOkReply(req.value).Some?
    && reply == Wire.Line(EncodeMessage(EchoOkReply(req.value).value))
  }

  /** `line`, read after the first, makes `main` panic. */
  predicate EchoFails(line: Option<Json>)
  {
    var req := ParseMessage(line, EchoKind);
    req.Err? || EchoOkReply(req.value).None?
  }

  /**
    One run of `main` over its input lines (`None` for a line that is not
    JSON), giving the lines it writes and whether it reached the end of input.
    The first line is answered with `init_ok`, each later line with `echo_ok`,
    one reply per line in input order; the first line that cannot be read or
    answered stops the run, and the replies written before it stay written.
   */
  method Run(lines: seq<Option<Json>>) returns (out: seq<string>, completed: bool)
    ensures |out| <= |lines|
    ensures completed ==> |out| == |lines| > 0
    ensures |out| > 0 ==> AnswersInit(lines[0], out[0])
    ensures forall i :: 1 <= i < |out| ==> AnswersEcho(lines[i], out[i])
    ensures !completed ==>
      if |out| == 0 then |lines| == 0 || ParseMessage(lines[0], InitKind).Err?
      else |out| < |lines| && EchoFails(lines[|out|])
  {
    if |lines| == 0 {
      return [], false;
    }
    var init := ParseMessage(lines[0], InitKind);
    if init.Err? {
      return [], false;
    }
    out := [Wire.Line(EncodeMessage(InitOkReply(init.value)))];
    var i := 1;
    while i < |lines|
      invariant 1 <= i <= |lines|
      invariant |out| == i
      invariant AnswersInit(lines[0], out[0])
      invariant forall k :: 1 <= k < i ==> AnswersEcho(lines[k], out[k])
    {
      var req := ParseMessage(lines[i], EchoKind);
      if req.Err? {
        return out, false;
      }
      var reply := EchoOkReply(req.value);
      if reply.None? {
        return out, false;
      }
      out := out + [Wire.Line(EncodeMessage(reply.value))];
      i := i + 1;
    }
    completed := true;
  }
}
