/** The forwarding cycle of src/main.rs: one datagram from the client is relayed to the
    upstream resolver, every A and AAAA answer of the reply is added to its ipset, and the
    reply goes back to the client unchanged. */
module Relay {
  import opened Bytes
  import opened Errors
  import opened IpsetTypes
  import opened Ipset

  /** Bytes of fixed data in a DNS header (nameser.h). */
  const HFIXEDSZ: nat := 12

  /** Size of the datagram buffer; a longer datagram is cut off. */
  const MSG_BUF_SIZE: nat := 512

  /** The answer records the relay cares about; every other kind is ignored. */
  datatype RData = A(a: Ipv4Octets) | AAAA(aaaa: Ipv6Octets) | OtherRecord

  /** One `add_to_ipset` call. */
  datatype AddRequest = AddRequest(addr: IpAddr, setname: Str)

  /** The IPv6 set name: the `ipv6_setname` argument when given, the IPv4 set name otherwise. */
  function Ipv6Setname(setnameIpv4: Str, ipv6Arg: Option<Str>): (s: Str)
    ensures ipv6Arg.None? ==> s == setnameIpv4
    ensures ipv6Arg.Some? ==> s == ipv6Arg.value
  {
    if ipv6Arg.Some? then ipv6Arg.value else setnameIpv4
  }

  /** The call an answer record leads to, if any. */
  function Request(answer: RData, setnameIpv4: Str, setnameIpv6: Str): (r: Option<AddRequest>)
    ensures r.None? <==> answer.OtherRecord?
    ensures r.Some? ==> (r.value.addr.V4? <==> answer.A?)
    ensures answer.A? ==> r.Some? && r.value.addr.Octets() == answer.a && r.value.setname == setnameIpv4
    ensures answer.AAAA? ==> r.Some? && r.value.addr.Octets() == answer.aaaa && r.value.setname == setnameIpv6
  {
    match answer
    case A(a) => Some(AddRequest(V4(a), setnameIpv4))
    case AAAA(aaaa) => Some(AddRequest(V6(aaaa), setnameIpv6))
    case OtherRecord => None
  }

  /** The calls a list of answers leads to, in answer order. */
  function Requests(answers: seq<RData>, setnameIpv4: Str, setnameIpv6: Str): (r: seq<AddRequest>)
    ensures |r| <= |answers|
  {
    if answers == [] then []
    else
      var init := Requests(answers[..|answers| - 1], setnameIpv4, setnameIpv6);
      match Request(answers[|answers| - 1], setnameIpv4, setnameIpv6)
      case Some(q) => init + [q]
      case None => init
  }

  lemma {:induction false} RequestsAppend(a: seq<RData>, b: seq<RData>, setnameIpv4: Str, setnameIpv6: Str)
    ensures Requests(a + b, setnameIpv4, setnameIpv6)
            == Requests(a, setnameIpv4, setnameIpv6) + Requests(b, setnameIpv4, setnameIpv6)
    decreases |b|
  {
    if b == [] {
      assert a + b == a;
    } else {
      var b' := b[..|b| - 1];
      assert (a + b)[..|a + b| - 1] == a + b';
      assert (a + b)[|a + b| - 1] == b[|b| - 1];
      RequestsAppend(a, b', setnameIpv4, setnameIpv6);
    }
  }

  /** Each A answer is added to the IPv4 set and each AAAA answer to the IPv6 set, and the
      calls are nothing but those. */
  lemma {:induction false} RequestsMembership(answers: seq<RData>, setnameIpv4: Str, setnameIpv6: Str, q: AddRequest)
    ensures q in Requests(answers, setnameIpv4, setnameIpv6) <==>
              || (q.addr.V4? && q.setname == setnameIpv4 && A(q.addr.v4) in answers)
              || (q.addr.V6? && q.setname == setnameIpv6 && AAAA(q.addr.v6) in answers)
    decreases |answers|
  {
    if answers != [] {
      var init := answers[..|answers| - 1];
      RequestsMembership(init, setnameIpv4, setnameIpv6, q);
      assert answers == init + [answers[|answers| - 1]];
      assert forall x :: x in answers <==> x in init || x == answers[|answers| - 1];
    }
  }

  /** Every call uses the set name of its address family. */
  lemma RequestsUseFamilySetname(answers: seq<RData>, setnameIpv4: Str, setnameIpv6: Str)
    ensures forall q :: q in Requests(answers, setnameIpv4, setnameIpv6) ==>
              (if q.addr.V4? then q.setname == setnameIpv4 else q.setname == setnameIpv6)
  {
    forall q | q in Requests(answers, setnameIpv4, setnameIpv6)
      ensures if q.addr.V4? then q.setname == setnameIpv4 else q.setname == setnameIpv6
    {
      RequestsMembership(answers, setnameIpv4, setnameIpv6, q);
    }
  }

  /** Without `ipv6_setname`, IPv6 addresses go to the IPv4 set too. */
  lemma DefaultIpv6UsesIpv4Name(answers: seq<RData>, setnameIpv4: Str)
    ensures forall q :: q in Requests(answers, setnameIpv4, Ipv6Setname(setnameIpv4, None)) ==>
              q.setname == setnameIpv4
  {
    RequestsUseFamilySetname(answers, setnameIpv4, Ipv6Setname(setnameIpv4, None));
  }

  /** The index of the first call, from `j` on, whose `add_to_ipset` fails; `netlink(k)` is how
      the kernel channel behaves for the k-th call of the cycle. */
  function FirstFailureFrom(reqs: seq<AddRequest>, netlink: nat -> NetlinkSocket, j: nat): (r: Option<nat>)
    requires j <= |reqs|
    ensures r.None? <==> forall k :: j <= k < |reqs| ==> PublishResult(reqs[k].setname, netlink(k)).Ok?
    ensures r.Some? ==> && j <= r.value < |reqs|
                        && PublishResult(reqs[r.value].setname, netlink(r.value)).Err?
                        && forall k :: j <= k < r.value ==> PublishResult(reqs[k].setname, netlink(k)).Ok?
    decreases |reqs| - j
  {
    if j == |reqs| then None
    else if PublishResult(reqs[j].setname, netlink(j)).Err? then Some(j)
    else FirstFailureFrom(reqs, netlink, j + 1)
  }

  /** A failing call preceded, from `j` on, only by succeeding ones is the first failure. */
  lemma {:induction false} FirstFailureIs(reqs: seq<AddRequest>, netlink: nat -> NetlinkSocket, j: nat, k: nat)
    requires j <= k < |reqs|
    requires forall i :: j <= i < k ==> PublishResult(reqs[i].setname, netlink(i)).Ok?
    requires PublishResult(reqs[k].setname, netlink(k)).Err?
    ensures FirstFailureFrom(reqs, netlink, j) == Some(k)
    decreases k - j
  {
    if j < k {
      FirstFailureIs(reqs, netlink, j + 1, k);
    }
  }

  /** What the sockets do during one cycle: `None` for a datagram stands for a failed receive;
      the netlink behaviour is given per call. */
  datatype Environment = Environment(
    clientDatagram: Option<seq<byte>>,
    upstreamBindOk: bool,
    upstreamSendOk: bool,
    upstreamDatagram: Option<seq<byte>>,
    replySendOk: bool,
    netlink: nat -> NetlinkSocket)

  /** What one cycle did: the bytes handed to the upstream send, the `add_to_ipset` calls made
      with the message each one sent, the bytes handed to the client send, and the result. */
  datatype Cycle = Cycle(
    forwarded: Option<seq<byte>>,
    calls: seq<AddRequest>,
    messages: seq<Option<NetlinkMessage>>,
    reply: Option<seq<byte>>,
    result: Result<()>)

  /** The messages the first `n` calls send. */
  function MessagesOf(reqs: seq<AddRequest>, n: nat, lib: NetlinkLib, netlink: nat -> NetlinkSocket): (ms: seq<Option<NetlinkMessage>>)
    requires n <= |reqs|
    ensures |ms| == n
    ensures forall k :: 0 <= k < n ==> ms[k] == SentMessage(reqs[k].addr, reqs[k].setname, lib, netlink(k))
  {
    seq(n, k requires 0 <= k < n => SentMessage(reqs[k].addr, reqs[k].setname, lib, netlink(k)))
  }

  /** One more call appends the message it sends. */
  lemma MessagesOfSnoc(reqs: seq<AddRequest>, q: AddRequest, lib: NetlinkLib, netlink: nat -> NetlinkSocket)
    ensures MessagesOf(reqs + [q], |reqs| + 1, lib, netlink)
            == MessagesOf(reqs, |reqs|, lib, netlink) + [SentMessage(q.addr, q.setname, lib, netlink(|reqs|))]
  {
  }

  /** What the `add_to_ipset` calls of one reply did: the calls made, the message each one sent,
      and whether they all succeeded. */
  datatype Publication = Publication(calls: seq<AddRequest>, messages: seq<Option<NetlinkMessage>>, result: Result<()>)

  /** The calls for `answers` are made in order up to and including the first that fails. */
  function PublicationOf(answers: seq<RData>, netlink: nat -> NetlinkSocket, lib: NetlinkLib,
                         setnameIpv4: Str, setnameIpv6: Str): Publication
  {
    var reqs := Requests(answers, setnameIpv4, setnameIpv6);
    match FirstFailureFrom(reqs, netlink, 0)
    case Some(k) => Publication(reqs[..k + 1], MessagesOf(reqs, k + 1, lib, netlink), PublishResult(reqs[k].setname, netlink(k)))
    case None => Publication(reqs, MessagesOf(reqs, |reqs|, lib, netlink), Ok(()))
  }

  /** The cycle once the upstream reply has arrived and parsed into `answers`: the reply is sent
      back only when every call succeeded. */
  function PublishAndReply(query: seq<byte>, reply: seq<byte>, answers: seq<RData>, env: Environment,
                           lib: NetlinkLib, setnameIpv4: Str, setnameIpv6: Str): Cycle
  {
    var p := PublicationOf(answers, env.netlink, lib, setnameIpv4, setnameIpv6);
    if p.result.Err? then Cycle(Some(query), p.calls, p.messages, None, p.result)
    else Cycle(Some(query), p.calls, p.messages, Some(reply),
               if env.replySendOk then Ok(()) else Err(Io(ClientSend)))
  }

  /** One `listen` cycle, step by step; `parse` stands for `Packet::parse`, giving the answer
      records or `None` for a malformed packet. */
  function ListenOutcome(env: Environment, parse: seq<byte> -> Option<seq<RData>>, lib: NetlinkLib,
                         setnameIpv4: Str, setnameIpv6: Str): Cycle
  {
    match env.clientDatagram
    case None => Cycle(None, [], [], None, Err(Io(ClientRecv)))
    case Some(d) =>
      var query := d[..Min(|d|, MSG_BUF_SIZE)];
      if |query| < HFIXEDSZ then Cycle(None, [], [], None, Err(ShortHeader(Client)))
      else if !env.upstreamBindOk then Cycle(None, [], [], None, Err(Io(UpstreamBind)))
      else if !env.upstreamSendOk then Cycle(Some(query), [], [], None, Err(Io(UpstreamSend)))
      else match env.upstreamDatagram
        case None => Cycle(Some(query), [], [], None, Err(Io(UpstreamRecv)))
        case Some(u) =>
          var reply := u[..Min(|u|, MSG_BUF_SIZE)];
          if |reply| < HFIXEDSZ then Cycle(Some(query), [], [], None, Err(ShortHeader(Upstream)))
          else match parse(reply)
            case None => Cycle(Some(query), [], [], None, Err(DnsPacket))
            case Some(answers) => PublishAndReply(query, reply, answers, env, lib, setnameIpv4, setnameIpv6)
  }

  /** The calls are a prefix of the answers' calls, made in order; every call but the last
      succeeded; the publication fails exactly when its last call failed, and otherwise it
      holds every call. Each call's message is the one `add_to_ipset` sends for it. */
  lemma PublicationStopsAtFirstFailure(answers: seq<RData>, netlink: nat -> NetlinkSocket, lib: NetlinkLib,
                                      setnameIpv4: Str, setnameIpv6: Str)
    ensures var p := PublicationOf(answers, netlink, lib, setnameIpv4, setnameIpv6);
            var reqs := Requests(answers, setnameIpv4, setnameIpv6);
      && |p.calls| <= |reqs| && p.calls == reqs[..|p.calls|]
      && |p.messages| == |p.calls|
      && (forall k :: 0 <= k < |p.calls| ==>
            p.messages[k] == SentMessage(p.calls[k].addr, p.calls[k].setname, lib, netlink(k)))
      && (forall k :: 0 <= k < |p.calls| - 1 ==> PublishResult(p.calls[k].setname, netlink(k)).Ok?)
      && (p.result.Ok? <==> p.calls == reqs && forall k :: 0 <= k < |reqs| ==> PublishResult(reqs[k].setname, netlink(k)).Ok?)
      && (p.result.Err? ==> p.calls != [] && p.result == PublishResult(p.calls[|p.calls| - 1].setname, netlink(|p.calls| - 1)))
  {
    var reqs := Requests(answers, setnameIpv4, setnameIpv6);
    var p := PublicationOf(answers, netlink, lib, setnameIpv4, setnameIpv6);
    match FirstFailureFrom(reqs, netlink, 0)
    case Some(k) =>
      assert p.calls == reqs[..k + 1];
      assert p.result.Err?;
    case None =>
      assert reqs[..|reqs|] == reqs;
  }

  /** A query shorter than a DNS header is neither forwarded nor answered. */
  lemma ShortQueryDropped(env: Environment, parse: seq<byte> -> Option<seq<RData>>, lib: NetlinkLib,
                          setnameIpv4: Str, setnameIpv6: Str)
    requires env.clientDatagram.Some? && |env.clientDatagram.value| < HFIXEDSZ
    ensures ListenOutcome(env, parse, lib, setnameIpv4, setnameIpv6)
            == Cycle(None, [], [], None, Err(ShortHeader(Client)))
  {
  }

  /** A reply shorter than a DNS header ends the cycle before parsing: no call, no reply, and
      the parser is not consulted. */
  lemma ShortReplyDropped(env: Environment, parse: seq<byte> -> Option<seq<RData>>, lib: NetlinkLib,
                          setnameIpv4: Str, setnameIpv6: Str)
    requires env.clientDatagram.Some? && |env.clientDatagram.value| >= HFIXEDSZ
    requires env.upstreamBindOk && env.upstreamSendOk
    requires env.upstreamDatagram.Some? && |env.upstreamDatagram.value| < HFIXEDSZ
    ensures var d := env.clientDatagram.value;
      ListenOutcome(env, parse, lib, setnameIpv4, setnameIpv6)
      == Cycle(Some(d[..Min(|d|, MSG_BUF_SIZE)]), [], [], None, Err(ShortHeader(Upstream)))
    ensures forall other: seq<byte> -> Option<seq<RData>> ::
              ListenOutcome(env, other, lib, setnameIpv4, setnameIpv6) == ListenOutcome(env, parse, lib, setnameIpv4, setnameIpv6)
  {
  }

  /** What goes upstream is the client's datagram cut off at 512 bytes, and at least a header. */
  lemma ForwardedQuery(env: Environment, parse: seq<byte> -> Option<seq<RData>>, lib: NetlinkLib,
                       setnameIpv4: Str, setnameIpv6: Str)
    ensures var out := ListenOutcome(env, parse, lib, setnameIpv4, setnameIpv6);
      out.forwarded.Some? ==>
        && env.clientDatagram.Some? && env.upstreamBindOk
        && out.forwarded.value == env.clientDatagram.value[..Min(|env.clientDatagram.value|, MSG_BUF_SIZE)]
        && HFIXEDSZ <= |out.forwarded.value| <= MSG_BUF_SIZE
    ensures var out := ListenOutcome(env, parse, lib, setnameIpv4, setnameIpv6);
      out.forwarded.None? ==> out.calls == [] && out.reply.None? && out.result.Err?
  {
  }

  /** A reply goes back to the client only after every A and AAAA answer in it was added to its
      set, and it is the upstream datagram unchanged (cut off at 512 bytes). */
  lemma ReplyRelayedAfterPublishing(env: Environment, parse: seq<byte> -> Option<seq<RData>>, lib: NetlinkLib,
                                    setnameIpv4: Str, setnameIpv6: Str)
    ensures var out := ListenOutcome(env, parse, lib, setnameIpv4, setnameIpv6);
      out.reply.Some? ==>
        && env.upstreamDatagram.Some?
        && out.reply.value == env.upstreamDatagram.value[..Min(|env.upstreamDatagram.value|, MSG_BUF_SIZE)]
        && HFIXEDSZ <= |out.reply.value|
        && parse(out.reply.value).Some?
        && out.calls == Requests(parse(out.reply.value).value, setnameIpv4, setnameIpv6)
        && forall k :: 0 <= k < |out.calls| ==> PublishResult(out.calls[k].setname, env.netlink(k)).Ok?
  {
    match env.clientDatagram
    case None =>
    case Some(d) =>
      match env.upstreamDatagram
      case None =>
      case Some(u) =>
        var reply := u[..Min(|u|, MSG_BUF_SIZE)];
        if parse(reply).Some? {
          PublicationStopsAtFirstFailure(parse(reply).value, env.netlink, lib, setnameIpv4, setnameIpv6);
        }
  }

  /** The calls of a cycle stop at the first failure, whose error is the cycle's, and then no
      reply is sent; each call's message is the one `add_to_ipset` sends for it. */
  lemma CallsStopAtFirstFailure(env: Environment, parse: seq<byte> -> Option<seq<RData>>, lib: NetlinkLib,
                                setnameIpv4: Str, setnameIpv6: Str)
    ensures var out := ListenOutcome(env, parse, lib, setnameIpv4, setnameIpv6);
      && |out.messages| == |out.calls|
      && (forall k :: 0 <= k < |out.calls| ==>
            out.messages[k] == SentMessage(out.calls[k].addr, out.calls[k].setname, lib, env.netlink(k)))
      && (forall k :: 0 <= k < |out.calls| - 1 ==> PublishResult(out.calls[k].setname, env.netlink(k)).Ok?)
      && (out.calls != [] && out.reply.None? ==>
            out.result == PublishResult(out.calls[|out.calls| - 1].setname, env.netlink(|out.calls| - 1))
            && out.result.Err?)
  {
    match env.clientDatagram
    case None =>
    case Some(d) =>
      match env.upstreamDatagram
      case None =>
      case Some(u) =>
        var reply := u[..Min(|u|, MSG_BUF_SIZE)];
        if parse(reply).Some? {
          PublicationStopsAtFirstFailure(parse(reply).value, env.netlink, lib, setnameIpv4, setnameIpv6);
        }
  }

  /** A cycle succeeds exactly when it relayed a reply and sending it worked. */
  lemma CycleSucceeds(env: Environment, parse: seq<byte> -> Option<seq<RData>>, lib: NetlinkLib,
                      setnameIpv4: Str, setnameIpv6: Str)
    ensures var out := ListenOutcome(env, parse, lib, setnameIpv4, setnameIpv6);
      out.result.Ok? <==> out.reply.Some? && env.replySendOk
  {
  }

  /** With both set names too long for the kernel, a reply carrying any A or AAAA answer is
      never relayed: its first call fails. */
  lemma LongSetnamesSuppressReplies(env: Environment, parse: seq<byte> -> Option<seq<RData>>, lib: NetlinkLib,
                                    setnameIpv4: Str, setnameIpv6: Str)
    requires |setnameIpv4| >= 31 && |setnameIpv6| >= 31
    ensures var out := ListenOutcome(env, parse, lib, setnameIpv4, setnameIpv6);
      out.reply.Some? ==> out.calls == []
  {
    ReplyRelayedAfterPublishing(env, parse, lib, setnameIpv4, setnameIpv6);
    var out := ListenOutcome(env, parse, lib, setnameIpv4, setnameIpv6);
    if out.reply.Some? && out.calls != [] {
      RequestsUseFamilySetname(parse(out.reply.value).value, setnameIpv4, setnameIpv6);
    }
  }

  /** `recv_from`/`recv` into `buf`: the datagram is copied from the start of the buffer and cut
      off at its end; the rest of the buffer keeps what it held. */
  method ReceiveInto(buf: array<byte>, datagram: seq<byte>) returns (received: nat)
    modifies buf
    ensures received == Min(|datagram|, buf.Length)
    ensures buf[..received] == datagram[..received]
    ensures buf[received..] == old(buf[received..])
  {
    received := Min(|datagram|, buf.Length);
    var i := 0;
    while i < received
      invariant 0 <= i <= received
      invariant forall k :: 0 <= k < i ==> buf[k] == datagram[k]
      invariant forall k :: i <= k < buf.Length ==> buf[k] == old(buf[k])
    {
      buf[i] := datagram[i];
      i := i + 1;
    }
    assert buf[..received] == datagram[..received];
  }

  /** Extending the answers by one record extends the calls by that record's call, if any. */
  lemma RequestsPrefixStep(answers: seq<RData>, i: nat, setnameIpv4: Str, setnameIpv6: Str)
    requires i < |answers|
    ensures Requests(answers[..i + 1], setnameIpv4, setnameIpv6)
            == Requests(answers[..i], setnameIpv4, setnameIpv6)
               + match Request(answers[i], setnameIpv4, setnameIpv6)
                 case Some(q) => [q]
                 case None => []
  {
    assert answers[..i + 1][..i] == answers[..i];
  }

  /** When the last of the calls for the first `i + 1` answers is the first to fail, those calls
      are the whole publication. */
  lemma PublicationStopsAt(answers: seq<RData>, i: nat, calls: seq<AddRequest>, messages: seq<Option<NetlinkMessage>>,
                           r: Result<()>, netlink: nat -> NetlinkSocket, lib: NetlinkLib, setnameIpv4: Str, setnameIpv6: Str)
    requires i < |answers|
    requires calls == Requests(answers[..i + 1], setnameIpv4, setnameIpv6) && calls != []
    requires messages == MessagesOf(calls, |calls|, lib, netlink)
    requires forall k :: 0 <= k < |calls| - 1 ==> PublishResult(calls[k].setname, netlink(k)).Ok?
    requires r == PublishResult(calls[|calls| - 1].setname, netlink(|calls| - 1)) && r.Err?
    ensures Publication(calls, messages, r) == PublicationOf(answers, netlink, lib, setnameIpv4, setnameIpv6)
  {
    var reqs := Requests(answers, setnameIpv4, setnameIpv6);
    RequestsAppend(answers[..i + 1], answers[i + 1..], setnameIpv4, setnameIpv6);
    assert answers[..i + 1] + answers[i + 1..] == answers;
    assert reqs[..|calls|] == calls;
    FirstFailureIs(reqs, netlink, 0, |calls| - 1);
    assert MessagesOf(reqs, |calls|, lib, netlink) == messages;
  }

  /** When every call succeeds, the publication holds all of them. */
  lemma PublicationComplete(answers: seq<RData>, calls: seq<AddRequest>, messages: seq<Option<NetlinkMessage>>,
                            netlink: nat -> NetlinkSocket, lib: NetlinkLib, setnameIpv4: Str, setnameIpv6: Str)
    requires calls == Requests(answers, setnameIpv4, setnameIpv6)
    requires messages == MessagesOf(calls, |calls|, lib, netlink)
    requires forall k :: 0 <= k < |calls| ==> PublishResult(calls[k].setname, netlink(k)).Ok?
    ensures Publication(calls, messages, Ok(())) == PublicationOf(answers, netlink, lib, setnameIpv4, setnameIpv6)
  {
  }

  /** One answer record of `listen`: an A record is added to the IPv4 set, an AAAA record to the
      IPv6 set, and any other record is skipped. */
  method PublishRecord(answer: RData, lib: NetlinkLib, sock: NetlinkSocket, setnameIpv4: Str, setnameIpv6: Str)
    returns (call: Option<AddRequest>, r: Result<()>, sent: Option<NetlinkMessage>)
    ensures call == Request(answer, setnameIpv4, setnameIpv6)
    ensures call.None? ==> r == Ok(()) && sent == None
    ensures call.Some? ==> && r == PublishResult(call.value.setname, sock)
                           && sent == SentMessage(call.value.addr, call.value.setname, lib, sock)
  {
    match answer {
      case A(a) =>
        call := Some(AddRequest(V4(a), setnameIpv4));
        r, sent := AddToIpset(V4(a), setnameIpv4, lib, sock);
      case AAAA(aaaa) =>
        call := Some(AddRequest(V6(aaaa), setnameIpv6));
        r, sent := AddToIpset(V6(aaaa), setnameIpv6, lib, sock);
      case OtherRecord =>
        call, r, sent := None, Ok(()), None;
    }
  }

  /** The loop over the answers of `listen`: A and AAAA records are added to their set, and the
      first failing call ends the loop with its error. */
  method PublishAnswers(answers: seq<RData>, netlink: nat -> NetlinkSocket, lib: NetlinkLib,
                        setnameIpv4: Str, setnameIpv6: Str) returns (p: Publication)
    ensures p == PublicationOf(answers, netlink, lib, setnameIpv4, setnameIpv6)
  {
    var calls: seq<AddRequest> := [];
    var messages: seq<Option<NetlinkMessage>> := [];
    var i := 0;
    while i < |answers|
      invariant 0 <= i <= |answers|
      invariant calls == Requests(answers[..i], setnameIpv4, setnameIpv6)
      invariant messages == MessagesOf(calls, |calls|, lib, netlink)
      invariant forall k :: 0 <= k < |calls| ==> PublishResult(calls[k].setname, netlink(k)).Ok?
    {
      RequestsPrefixStep(answers, i, setnameIpv4, setnameIpv6);
      var call, r, sent := PublishRecord(answers[i], lib, netlink(|calls|), setnameIpv4, setnameIpv6);
      if call.Some? {
        MessagesOfSnoc(calls, call.value, lib, netlink);
        calls := calls + [call.value];
        messages := messages + [sent];
        if r.Err? {
          PublicationStopsAt(answers, i, calls, messages, r, netlink, lib, setnameIpv4, setnameIpv6);
          return Publication(calls, messages, r);
        }
      }
      i := i + 1;
    }
    assert answers[..i] == answers;
    PublicationComplete(answers, calls, messages, netlink, lib, setnameIpv4, setnameIpv6);
    p := Publication(calls, messages, Ok(()));
  }

  /** `listen`: one cycle over a zeroed 512-byte buffer that both datagrams are received into. */
  method Listen(env: Environment, parse: seq<byte> -> Option<seq<RData>>, lib: NetlinkLib,
                setnameIpv4: Str, setnameIpv6: Str) returns (out: Cycle)
    ensures out == ListenOutcome(env, parse, lib, setnameIpv4, setnameIpv6)
  {
    var msgBuf := new byte[MSG_BUF_SIZE](_ => 0);
    if env.clientDatagram.None? {
      return Cycle(None, [], [], None, Err(Io(ClientRecv)));
    }
    var received := ReceiveInto(msgBuf, env.clientDatagram.value);
    if received < HFIXEDSZ {
      return Cycle(None, [], [], None, Err(ShortHeader(Client)));
    }

    if !env.upstreamBindOk {
      return Cycle(None, [], [], None, Err(Io(UpstreamBind)));
    }
    var query := msgBuf[..received];
    if !env.upstreamSendOk {
      return Cycle(Some(query), [], [], None, Err(Io(UpstreamSend)));
    }
    if env.upstreamDatagram.None? {
      return Cycle(Some(query), [], [], None, Err(Io(UpstreamRecv)));
    }
    received := ReceiveInto(msgBuf, env.upstreamDatagram.value);
    if received < HFIXEDSZ {
      return Cycle(Some(query), [], [], None, Err(ShortHeader(Upstream)));
    }

    var packet := parse(msgBuf[..received]);
    if packet.None? {
      return Cycle(Some(query), [], [], None, Err(DnsPacket));
    }
    var p := PublishAnswers(packet.value, env.netlink, lib, setnameIpv4, setnameIpv6);
    if p.result.Err? {
      return Cycle(Some(query), p.calls, p.messages, None, p.result);
    }

    // send back
    var reply := msgBuf[..received];
    out := Cycle(Some(query), p.calls, p.messages, Some(reply),
                 if env.replySendOk then Ok(()) else Err(Io(ClientSend)));
  }

  /** The serving loop of `main`: one `listen` cycle per environment; a failed cycle is logged
      and the next one runs regardless. */
  method Serve(envs: seq<Environment>, parse: seq<byte> -> Option<seq<RData>>, lib: NetlinkLib,
               setnameIpv4: Str, ipv6Arg: Option<Str>) returns (outs: seq<Cycle>)
    ensures |outs| == |envs|
    ensures forall i :: 0 <= i < |envs| ==>
              outs[i] == ListenOutcome(envs[i], parse, lib, setnameIpv4, Ipv6Setname(setnameIpv4, ipv6Arg))
  {
    var setnameIpv6 := Ipv6Setname(setnameIpv4, ipv6Arg);
    outs := [];
    var i := 0;
    while i < |envs|
      invariant 0 <= i <= |envs|
      invariant |outs| == i
      invariant forall j :: 0 <= j < i ==> outs[j] == ListenOutcome(envs[j], parse, lib, setnameIpv4, setnameIpv6)
    {
      var out := Listen(envs[i], parse, lib, setnameIpv4, setnameIpv6);
      outs := outs + [out];
      i := i + 1;
    }
  }
}
