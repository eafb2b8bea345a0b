/** The two messages of the GUI's `SendandReceive` (src/gui/pm301.cpp:389-427), in the variant that is
    built (src/gui/CMakeLists.txt:2). */
module Client {
  import opened Basics
  import opened Message
  import opened Protocol

  class PM301 {
    const request: Msg
    const reply: Msg

    constructor ()
      ensures fresh(request) && fresh(reply) && fresh(request.data) && fresh(reply.data)
      ensures request.Valid() && reply.Valid()
    {
      request := new Msg();
      reply := new Msg();
    }

    /** The first half of `SendandReceive`, under the lock: what is written is the frame of the text, as
        the holder's `Sending` phase has it. */
    method Prepare<S>(text: string, ghost tid: nat, ghost process: Process<S>, ghost net: Net<S>)
      requires request.Valid() && IsText(text)
      requires net.holder.None? && tid in net.waiting && net.waiting[tid] == text
      modifies request, request.data
      ensures request.Valid() && request.Wire() == Encode(Frame(MSG_REQUEST, text))
      ensures Next(process, net, Lock(tid)).holder == Some(Holder(tid, text, Sending(request.Wire())))
    {
      request.PutText(MSG_REQUEST, text);
    }

    /** A reply header has been read; None when the body is to be read, else the caller's result. */
    method TakeHeader<S>(ghost process: Process<S>, ghost net: Net<S>) returns (r: Option<string>)
      requires reply.Valid()
      requires net.holder.Some? && net.holder.value.phase.AwaitingHeader? && |net.toClient| >= HEADER_LENGTH
      requires reply.data[..HEADER_LENGTH] == net.toClient[..HEADER_LENGTH]
      modifies reply
      ensures reply.Valid()
      ensures r == if ParseHeader(reply.data[..HEADER_LENGTH]).Bad? then Some("FAILURE") else None
      ensures r.None? ==>
        Next(process, net, ClientReadsHeader).holder == Some(net.holder.value.(phase := AwaitingBody(reply.tp, reply.bodyLength)))
      ensures r.Some? ==>
        Next(process, net, ClientReadsHeader).done == net.done + [Call(net.holder.value.tid, net.holder.value.request, r.value)]
    {
      var ok := reply.DecodeHeader();
      r := if ok then None else Some("FAILURE");
    }

    /** The announced body has been read. */
    method Result<S>(ghost process: Process<S>, ghost net: Net<S>) returns (r: string)
      requires reply.Valid()
      requires net.holder.Some? && net.holder.value.phase == AwaitingBody(reply.tp, reply.bodyLength)
      requires |net.toClient| >= reply.bodyLength && reply.Body() == net.toClient[..reply.bodyLength]
      ensures r == if reply.tp == MSG_SUCCESS then "OK" else reply.Body()
      ensures Next(process, net, ClientReadsBody).done == net.done + [Call(net.holder.value.tid, net.holder.value.request, r)]
    {
      if reply.tp == MSG_SUCCESS {
        return "OK";
      }
      return reply.data[HEADER_LENGTH..HEADER_LENGTH + reply.bodyLength];
    }
  }
}
