/**
  The network side of the server: the address it listens on, the accept loop,
  and per connection the filtering of channel opens (only "session" channels,
  section 6.1 of RFC 4254) and of session requests (only the "sftp" subsystem,
  section 6.5 of RFC 4254).
 */
module Server {
  import opened Wrappers
  import Wire

  /** A session request: its type, whether it wants a reply, and its type-specific data. */
  datatype Request = Request(Type: string, WantReply: bool, Payload: seq<Wire.byte>)

  /** The bytes of the subsystem name "sftp". */
  const SftpName: seq<Wire.byte> := [0x73, 0x66, 0x74, 0x70]

  /**
    The payload of a "subsystem" request is long enough to skip its four-byte
    length prefix. On a shorter one the slice expression of `handleRequests`
    panics, and since nothing recovers the panic, the whole server process ends.
   */
  predicate WellFormed(req: Request)
  {
    req.Type == "subsystem" ==> |req.Payload| >= 4
  }

  predicate AllWellFormed(requests: seq<Request>)
  {
    forall i :: 0 <= i < |requests| ==> WellFormed(requests[i])
  }

  /**
    The reply `handleRequests` gives: true for a "subsystem" request whose
    payload after the first four bytes is "sftp". The length prefix of the
    payload's `string` (section 5 of RFC 4251) is skipped, not checked.
   */
  predicate Reply(req: Request)
    requires WellFormed(req)
    ensures Reply(req) ==> req.Type == "subsystem" && |req.Payload| == 4 + |SftpName|
  {
    req.Type == "subsystem" && req.Payload[4..] == SftpName
  }

  /** The "sftp" subsystem request as a client encodes it is accepted... */
  lemma SftpSubsystemAccepted(wantReply: bool)
    ensures WellFormed(Request("subsystem", wantReply, Wire.EncodeString(SftpName)))
    ensures Reply(Request("subsystem", wantReply, Wire.EncodeString(SftpName)))
  {
  }

  /** ...and so is one with any four bytes before the name, whatever length they state. */
  lemma AnyPrefixAccepted(prefix: seq<Wire.byte>, wantReply: bool)
    requires |prefix| == 4
    ensures Reply(Request("subsystem", wantReply, prefix + SftpName))
  {
    assert (prefix + SftpName)[4..] == SftpName;
  }

  /** A request for any other subsystem is refused... */
  lemma OtherSubsystemRefused(name: seq<Wire.byte>, wantReply: bool)
    requires |name| < Wire.Uint32Limit && name != SftpName
    ensures !Reply(Request("subsystem", wantReply, Wire.EncodeString(name)))
  {
  }

  /** ...as is every request that is not a subsystem request, whatever its payload. */
  lemma OtherTypeRefused(req: Request)
    requires req.Type != "subsystem"
    ensures WellFormed(req) && !Reply(req)
  {
  }

  /** `handleRequests`: one reply per request, in the order the requests arrive. */
  method HandleRequests(requests: seq<Request>) returns (replies: seq<bool>)
    requires AllWellFormed(requests)
    ensures |replies| == |requests|
    ensures forall i :: 0 <= i < |requests| ==> replies[i] == Reply(requests[i])
  {
    replies := [];
    var k := 0;
    while k < |requests|
      invariant 0 <= k <= |requests|
      invariant |replies| == k
      invariant forall i :: 0 <= i < k ==> replies[i] == Reply(requests[i])
    {
      var req := requests[k];
      if req.Type == "subsystem" && req.Payload[4..] == SftpName {
        replies := replies + [true];
      } else {
        replies := replies + [false];
      }
      k := k + 1;
    }
  }

  /** A channel a client asks to open, whether accepting it fails, and the requests it then carries. */
  datatype NewChannel = NewChannel(ChannelType: string, AcceptFails: bool, Requests: seq<Request>)

  /** `SSH_OPEN_UNKNOWN_CHANNEL_TYPE`, section 5.1 of RFC 4254. */
  const UnknownChannelType: nat := 3

  /** What becomes of one channel open. */
  datatype ChannelOutcome =
    | Rejected(reason: nat, message: string)
    | AcceptFailed
    | Session(replies: seq<bool>)

  predicate ChannelWellFormed(ch: NewChannel)
  {
    AllWellFormed(ch.Requests)
  }

  /** Only "session" channels are accepted; on an accepted one every request is answered. */
  function ChannelDecision(ch: NewChannel): (out: ChannelOutcome)
    requires ChannelWellFormed(ch)
    ensures out.Rejected? <==> ch.ChannelType != "session"
    ensures out.Rejected? ==> out == Rejected(UnknownChannelType, "unknown channel type")
    ensures ch.ChannelType == "session" ==> (out.AcceptFailed? <==> ch.AcceptFails)
    ensures out.Session? ==> |out.replies| == |ch.Requests|
    ensures out.Session? ==> forall i :: 0 <= i < |ch.Requests| ==> out.replies[i] == Reply(ch.Requests[i])
  {
    if ch.ChannelType != "session" then Rejected(UnknownChannelType, "unknown channel type")
    else if ch.AcceptFails then AcceptFailed
    else Session(seq(|ch.Requests|, i requires 0 <= i < |ch.Requests| => Reply(ch.Requests[i])))
  }

  /** An accepted session channel answers its "sftp" subsystem request with true. */
  lemma SessionAcceptsSftp(ch: NewChannel, k: nat)
    requires ChannelWellFormed(ch) && ch.ChannelType == "session" && !ch.AcceptFails
    requires k < |ch.Requests| && ch.Requests[k].Type == "subsystem"
    requires ch.Requests[k].Payload[4..] == SftpName
    ensures ChannelDecision(ch).Session? && ChannelDecision(ch).replies[k]
  {
  }

  predicate ConnectionWellFormed(chans: seq<NewChannel>)
  {
    forall i :: 0 <= i < |chans| ==> ChannelWellFormed(chans[i])
  }

  /**
    `handleConnection`: after a handshake, every channel open is decided in turn;
    a rejected channel or a failed accept does not end the loop. A failed
    handshake handles no channel.
   */
  method HandleConnection(handshakeOk: bool, chans: seq<NewChannel>) returns (outcomes: seq<ChannelOutcome>)
    requires ConnectionWellFormed(chans)
    ensures !handshakeOk ==> outcomes == []
    ensures handshakeOk ==>
              |outcomes| == |chans| && forall i :: 0 <= i < |chans| ==> outcomes[i] == ChannelDecision(chans[i])
  {
    if !handshakeOk {
      return [];
    }
    outcomes := [];
    var k := 0;
    while k < |chans|
      invariant 0 <= k <= |chans|
      invariant |outcomes| == k
      invariant forall i :: 0 <= i < k ==> outcomes[i] == ChannelDecision(chans[i])
    {
      var newChannel := chans[k];
      if newChannel.ChannelType != "session" {
        outcomes := outcomes + [Rejected(UnknownChannelType, "unknown channel type")];
      } else if newChannel.AcceptFails {
        outcomes := outcomes + [AcceptFailed];
      } else {
        var replies := HandleRequests(newChannel.Requests);
        assert replies == ChannelDecision(newChannel).replies;
        outcomes := outcomes + [Session(replies)];
      }
      k := k + 1;
    }
  }

  /** What the server makes of one connection. */
  function ConnectionOutcome(handshakeOk: bool, chans: seq<NewChannel>): seq<ChannelOutcome>
    requires ConnectionWellFormed(chans)
  {
    if handshakeOk then seq(|chans|, i requires 0 <= i < |chans| => ChannelDecision(chans[i])) else []
  }

  /**
    `fmt.Sprintf("%s:%s", address, port)`: the address and the port again, split
    at the last colon, when the port has none.
   */
  function ListenAddress(address: string, port: string): (r: string)
    ensures ':' !in port ==> SplitAtLastColon(r) == Some((address, port))
  {
    if ':' !in port then SplitsAtColon(address, port); address + ":" + port
    else address + ":" + port
  }

  /** The address and port of a host:port string, split at its last colon. */
  function SplitAtLastColon(s: string): (r: Option<(string, string)>)
    ensures r.Some? ==> r.value.0 + ":" + r.value.1 == s && ':' !in r.value.1
    ensures r.None? ==> ':' !in s
  {
    if s == [] then None
    else if s[|s| - 1] == ':' then Some((s[..|s| - 1], []))
    else match SplitAtLastColon(s[..|s| - 1])
      case None => None
      case Some((a, p)) => Some((a, p + [s[|s| - 1]]))
  }

  lemma {:induction false} SplitsAtColon(address: string, port: string)
    requires ':' !in port
    ensures SplitAtLastColon(address + ":" + port) == Some((address, port))
    decreases |port|
  {
    var s := address + ":" + port;
    if port == [] {
      assert s[..|s| - 1] == address;
    } else {
      var init := port[..|port| - 1];
      assert s[..|s| - 1] == address + ":" + init;
      assert s[|s| - 1] == port[|port| - 1];
      SplitsAtColon(address, init);
      assert init + [port[|port| - 1]] == port;
    }
  }

  /** The result of one `Accept` call. */
  datatype Incoming = AcceptError(reason: string) | Connection(handshakeOk: bool, chans: seq<NewChannel>)

  predicate IncomingWellFormed(incoming: seq<Incoming>)
  {
    forall i :: 0 <= i < |incoming| ==> incoming[i].Connection? ==> ConnectionWellFormed(incoming[i].chans)
  }

  /** The connections the accept loop hands on, in order, skipping failed accepts. */
  function Handled(incoming: seq<Incoming>): seq<seq<ChannelOutcome>>
    requires IncomingWellFormed(incoming)
  {
    if incoming == [] then []
    else
      var rest := Handled(incoming[1..]);
      match incoming[0]
      case AcceptError(_) => rest
      case Connection(ok, chans) => [ConnectionOutcome(ok, chans)] + rest
  }

  lemma {:induction false} HandledAppend(xs: seq<Incoming>, ys: seq<Incoming>)
    requires IncomingWellFormed(xs) && IncomingWellFormed(ys)
    ensures IncomingWellFormed(xs + ys)
    ensures Handled(xs + ys) == Handled(xs) + Handled(ys)
  {
    if xs == [] {
      assert xs + ys == ys;
    } else {
      assert (xs + ys)[0] == xs[0];
      assert (xs + ys)[1..] == xs[1..] + ys;
      HandledAppend(xs[1..], ys);
    }
  }

  /** A failed accept changes nothing about what the server goes on to serve. */
  lemma AcceptErrorSkipped(xs: seq<Incoming>, reason: string, ys: seq<Incoming>)
    requires IncomingWellFormed(xs) && IncomingWellFormed(ys)
    ensures IncomingWellFormed(xs + [AcceptError(reason)] + ys)
    ensures Handled(xs + [AcceptError(reason)] + ys) == Handled(xs + ys)
  {
    HandledAppend(xs, [AcceptError(reason)]);
    HandledAppend(xs + [AcceptError(reason)], ys);
    HandledAppend(xs, ys);
    assert Handled([AcceptError(reason)]) == [];
    assert Handled(xs) + [] == Handled(xs);
  }

  /** How `Serve` ends: the listen fails and the process exits, or the accept loop runs. */
  datatype ServeOutcome =
    | ListenFailed(listenAt: string, reason: string)
    | Listening(listenAt: string, connections: seq<seq<ChannelOutcome>>)

  /**
    `Serve`: listens on `address:port` (`listen` gives the error of listening on
    an address, if any) and handles every connection the listener accepts, in
    order, over the accept results seen so far.
   */
  method Serve(address: string, port: string, listen: string -> Option<string>, incoming: seq<Incoming>)
    returns (r: ServeOutcome)
    requires IncomingWellFormed(incoming)
    ensures var listenAt := ListenAddress(address, port);
            r == if listen(listenAt).Some? then ListenFailed(listenAt, listen(listenAt).value)
                 else Listening(listenAt, Handled(incoming))
  {
    var listenAt := address + ":" + port;
    var err := listen(listenAt);
    if err.Some? {
      return ListenFailed(listenAt, err.value);
    }
    var connections: seq<seq<ChannelOutcome>> := [];
    var k := 0;
    while k < |incoming|
      invariant 0 <= k <= |incoming|
      invariant IncomingWellFormed(incoming[k..])
      invariant Handled(incoming) == connections + Handled(incoming[k..])
    {
      var next := incoming[k];
      assert incoming[k..][0] == next && incoming[k..][1..] == incoming[k + 1..];
      match next {
        case AcceptError(_) =>
        case Connection(ok, chans) =>
          var outcomes := HandleConnection(ok, chans);
          assert outcomes == ConnectionOutcome(ok, chans);
          connections := connections + [outcomes];
      }
      k := k + 1;
    }
    assert Handled(incoming[k..]) == [];
    assert connections + [] == connections;
    return Listening(listenAt, connections);
  }
}
