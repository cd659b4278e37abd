/** The Scallop handshake: two Noise IX messages, then CLIENTFIN and, if the client asked for an
    attestation, SERVERFIN. Both ends run as coroutines over a pair of channels; a schedule
    says whose turn it is. Keys and attestations are opaque; the cipher is its message order. */
module Handshake {
  import opened Bytes

  type Key = nat

  /** What one end is given: its static key, its store of authenticated keys if it has one, the
      attestation its auther makes if it has one, and its store's verifier. */
  datatype Party = Party(
    key: Key, store: Option<set<Key>>, auther: Option<seq<byte>>, verify: (seq<byte>, Key) -> bool)

  datatype Config = Config(client: Party, server: Party)

  /** Which Noise message: the two handshake messages, or a transport message by its counter. */
  datatype Kind = First | Second | Transport(n: nat)

  datatype Packet =
    | Negotiation(len: nat)
    | Message(kind: Kind, payload: seq<byte>)

  /** Bytes of the Noise message on the wire: IX sends 32 + 32 key bytes in the clear first,
      then 32 + 48 and a tag, and each transport message carries a tag. */
  function WireSize(m: Packet): nat
    requires m.Message?
  {
    match m.kind
    case First => 64 + |m.payload|
    case Second => 96 + |m.payload|
    case Transport(_) => 16 + |m.payload|
  }

  datatype Error = TransportError | NoiseError | ProtocolError

  datatype Outcome = Success | Failure(error: Error) | Panic

  datatype Stage =
    | SendFirst | ReadNegotiation | ReadFirst | ReadSecond | SendSecond
    | SendClientFin | ReadClientFin | SendServerFin | ReadServerFin
    | Finished(outcome: Outcome)

  datatype Side = Side(stage: Stage, asks: bool, sends: bool, store: Option<set<Key>>, sendN: nat, recvN: nat)

  datatype State = State(client: Side, server: Side, toServer: seq<Packet>, toClient: seq<Packet>)

  const SMALL_BUFFER: nat := 1024
  const LARGE_BUFFER: nat := 65000
  const MAX_AUTH: nat := 60000

  function Init(cfg: Config): State {
    State(Side(SendFirst, false, false, cfg.client.store, 0, 0),
          Side(ReadNegotiation, false, false, cfg.server.store, 0, 0), [], [])
  }

  /** `auth_store.is_some() && !contains(remote_static)`. */
  predicate Asks(p: Party, remote: Key) { p.store.Some? && remote !in p.store.value }

  function Flag(b: bool): seq<byte> { [if b then 1 else 0] }

  predicate Dropped(s: Side) { s.stage.Finished? && s.stage.outcome != Success }

  datatype ReadResult =
    | Blocked
    | Failed(outcome: Outcome)
    | Got(packet: Packet)

  /** A blocking read of the next packet, as `read_u16` and `noise_read` do it: the end of the
      stream is an error, a message longer than the buffer given is an out-of-range slice, and
      a message out of order does not decrypt. */
  function Read(chan: seq<Packet>, peer: Side, want: Option<Kind>, buffer: nat): ReadResult {
    if chan == [] then (if Dropped(peer) then Failed(Failure(TransportError)) else Blocked)
    else match (chan[0], want)
      case (Negotiation(_), None) => Got(chan[0])
      case (Message(kind, payload), Some(k)) =>
        if WireSize(chan[0]) > buffer then Failed(Panic)
        else if kind != k then Failed(Failure(NoiseError))
        else Got(chan[0])
      case _ => Failed(Failure(NoiseError))
  }

  predicate Reads(s: Side) {
    || s.stage.ReadNegotiation? || s.stage.ReadFirst? || s.stage.ReadSecond?
    || s.stage.ReadClientFin? || s.stage.ReadServerFin?
  }

  function Want(s: Side): Option<Kind> {
    match s.stage
    case ReadFirst => Some(First)
    case ReadSecond => Some(Second)
    case ReadClientFin => Some(Transport(s.recvN))
    case ReadServerFin => Some(Transport(s.recvN))
    case _ => None
  }

  function Buffer(s: Side): nat { if s.stage.ReadServerFin? then LARGE_BUFFER else SMALL_BUFFER }

  function Finish(s: Side, o: Outcome): Side { s.(stage := Finished(o)) }

  /** CLIENTFIN's and SERVERFIN's own framing: `head` bytes, a 16-bit size, the payload. */
  function Fin(head: seq<byte>, payload: seq<byte>): seq<byte>
    requires |payload| <= MAX_AUTH
  {
    head + U16(|payload|) + payload
  }

  /** The payload of a FIN message with `head` leading bytes, if its size field matches. */
  function FinPayload(m: seq<byte>, head: nat): Option<seq<byte>> {
    if |m| < head + 2 || FromU16(m[head], m[head + 1]) != |m| - (head + 2) then None
    else Some(m[head + 2..])
  }

  // ---- the client ----

  function ClientGets(cfg: Config, s: Side, p: Packet): Side {
    match s.stage
    case ReadNegotiation =>
      if p.Negotiation? && p.len == 0 then s.(stage := ReadSecond) else Finish(s, Failure(ProtocolError))
    case ReadSecond =>
      if !p.Message? || |p.payload| != 3 || p.payload[0] != 0 || p.payload[1] != 1 || p.payload[2] > 1
      then Finish(s, Failure(ProtocolError))
      else if p.payload[2] == 1 && cfg.client.auther.None? then Finish(s, Failure(ProtocolError))
      else s.(stage := SendClientFin, sends := p.payload[2] == 1, asks := Asks(cfg.client, cfg.server.key))
    case ReadServerFin =>
      if !p.Message? then Finish(s, Failure(ProtocolError))
      else
        var t := s.(recvN := s.recvN + 1);
        (match FinPayload(p.payload, 0)
         case None => Finish(t, Failure(ProtocolError))
         case Some(auth) =>
           if t.store.None? || !cfg.client.verify(auth, cfg.server.key) then Finish(t, Failure(ProtocolError))
           else Finish(t.(store := Some(t.store.value + {cfg.server.key})), Success))
    case _ => s
  }

  function ClientStep(cfg: Config, g: State): State {
    var s := g.client;
    if Reads(s) then
      match Read(g.toClient, g.server, Want(s), Buffer(s))
      case Blocked => g
      case Failed(o) => g.(client := Finish(s, o))
      case Got(p) => g.(client := ClientGets(cfg, s, p), toClient := g.toClient[1..])
    else match s.stage
      case SendFirst =>
        g.(client := s.(stage := ReadNegotiation), toServer := g.toServer + [Negotiation(0), Message(First, [])])
      case SendClientFin =>
        var auth := if s.sends && cfg.client.auther.Some? then cfg.client.auther.value else [];
        if |auth| > MAX_AUTH then g.(client := Finish(s, Failure(ProtocolError)))
        else
          var t := s.(sendN := s.sendN + 1);
          g.(client := if s.asks then t.(stage := ReadServerFin) else Finish(t, Success),
             toServer := g.toServer + [Message(Transport(s.sendN), Fin(Flag(s.asks), auth))])
      case _ => g
  }

  // ---- the server ----

  function ServerGets(cfg: Config, s: Side, p: Packet): Side {
    match s.stage
    case ReadNegotiation =>
      if p.Negotiation? && p.len == 0 then s.(stage := ReadFirst) else Finish(s, Failure(ProtocolError))
    case ReadFirst =>
      if p.Message? && p.payload == []
      then s.(stage := SendSecond, asks := Asks(cfg.server, cfg.client.key))
      else Finish(s, Failure(ProtocolError))
    case ReadClientFin =>
      if !p.Message? then Finish(s, Failure(ProtocolError))
      else
        var t := s.(recvN := s.recvN + 1);
        (match FinPayload(p.payload, 1)
         case None => Finish(t, Failure(ProtocolError))
         case Some(auth) =>
           if t.asks && (t.store.None? || !cfg.server.verify(auth, cfg.client.key))
           then Finish(t, Failure(ProtocolError))
           else
             var u := if t.asks then t.(store := Some(t.store.value + {cfg.client.key})) else t;
             if p.payload[0] > 1 then Finish(u, Failure(ProtocolError))
             else if p.payload[0] == 1 && cfg.server.auther.None? then Finish(u, Failure(ProtocolError))
             else if p.payload[0] == 1 then u.(stage := SendServerFin, sends := true)
             else Finish(u, Success))
    case _ => s
  }

  function ServerStep(cfg: Config, g: State): State {
    var s := g.server;
    if Reads(s) then
      match Read(g.toServer, g.client, Want(s), Buffer(s))
      case Blocked => g
      case Failed(o) => g.(server := Finish(s, o))
      case Got(p) => g.(server := ServerGets(cfg, s, p), toServer := g.toServer[1..])
    else match s.stage
      case SendSecond =>
        g.(server := s.(stage := ReadClientFin),
           toClient := g.toClient + [Negotiation(0), Message(Second, [0, 1] + Flag(s.asks))])
      case SendServerFin =>
        var auth := if cfg.server.auther.Some? then cfg.server.auther.value else [];
        if |auth| > MAX_AUTH then g.(server := Finish(s, Failure(ProtocolError)))
        else
          g.(server := Finish(s.(sendN := s.sendN + 1), Success),
             toClient := g.toClient + [Message(Transport(s.sendN), Fin([], auth))])
      case _ => g
  }

  function Run(cfg: Config, schedule: seq<bool>): State {
    if schedule == [] then Init(cfg)
    else
      var g := Run(cfg, schedule[..|schedule| - 1]);
      if schedule[|schedule| - 1] then ClientStep(cfg, g) else ServerStep(cfg, g)
  }

  // ---- what each end takes from a peer that may send anything ----

  /** A FIN is taken for what it carries exactly if its size field is that of the rest. */
  lemma FinPayloadExactly(m: seq<byte>, head: nat, p: seq<byte>)
    ensures FinPayload(m, head) == Some(p)
       <==> |p| < 0x1_0000 && |m| == head + 2 + |p| && m[head..head + 2] == U16(|p|) && m[head + 2..] == p
  {
    if |p| < 0x1_0000 {
      U16RoundTrip(|p|);
    }
    if |m| >= head + 2 {
      assert m[head..head + 2] == [m[head], m[head + 1]];
      assert U16(FromU16(m[head], m[head + 1])) == [m[head], m[head + 1]];
    }
  }

  /** A packet is taken exactly if it is the kind awaited and fits the buffer; one that does not fit is a
      panic, whatever it is; nothing there is waited for as long as the peer has not failed. */
  lemma TakenExactly(chan: seq<Packet>, peer: Side, want: Option<Kind>, buffer: nat)
    ensures var r := Read(chan, peer, want, buffer);
      && (r.Blocked? <==> chan == [] && !Dropped(peer))
      && (r.Got? <==>
            && chan != []
            && if want.None? then chan[0].Negotiation?
               else chan[0].Message? && chan[0].kind == want.value && WireSize(chan[0]) <= buffer)
      && (r.Got? ==> r.packet == chan[0])
      && (r == Failed(Panic) <==> chan != [] && want.Some? && chan[0].Message? && WireSize(chan[0]) > buffer)
      && (r == Failed(Failure(TransportError)) <==> chan == [] && Dropped(peer))
  {
  }

  /** What the client goes on with: a negotiation of length 0; the version 0, 1 and a flag, which asks only
      for what the client can give; an attestation of the server that its store takes. It fails on anything
      else. */
  lemma ClientTakesExactly(cfg: Config, s: Side, p: Packet)
    ensures var t := ClientGets(cfg, s, p);
      match s.stage
      case ReadNegotiation =>
        t == if p == Negotiation(0) then s.(stage := ReadSecond) else Finish(s, Failure(ProtocolError))
      case ReadSecond =>
        if p.Message? && (p.payload == [0, 1, 0] || (p.payload == [0, 1, 1] && cfg.client.auther.Some?))
        then t == s.(stage := SendClientFin, sends := p.payload == [0, 1, 1],
                     asks := cfg.client.store.Some? && cfg.server.key !in cfg.client.store.value)
        else t == Finish(s, Failure(ProtocolError))
      case ReadServerFin =>
        (t.stage == Finished(Success)
         <==> p.Message? && s.store.Some? && FinPayload(p.payload, 0).Some?
              && cfg.client.verify(FinPayload(p.payload, 0).value, cfg.server.key))
        && (t.stage != Finished(Success) ==> t.stage == Finished(Failure(ProtocolError)) && t.store == s.store)
      case _ => t == s
  {
    hide FinPayload;
  }

  /** And the server: a negotiation of length 0; an empty first payload; a CLIENTFIN whose attestation its
      store takes if it asked for one, with a flag of 0, or of 1 if it can give what that asks for. */
  lemma ServerTakesExactly(cfg: Config, s: Side, p: Packet)
    ensures var t := ServerGets(cfg, s, p);
      match s.stage
      case ReadNegotiation =>
        t == if p == Negotiation(0) then s.(stage := ReadFirst) else Finish(s, Failure(ProtocolError))
      case ReadFirst =>
        t == (if p.Message? && |p.payload| == 0
              then s.(stage := SendSecond, asks := cfg.server.store.Some? && cfg.client.key !in cfg.server.store.value)
              else Finish(s, Failure(ProtocolError)))
      case ReadClientFin =>
        var taken := p.Message? && FinPayload(p.payload, 1).Some?
                     && (s.asks ==> s.store.Some?
                                    && cfg.server.verify(FinPayload(p.payload, 1).value, cfg.client.key));
        && (t.stage == Finished(Success) <==> taken && p.payload[0] == 0)
        && (t.stage == SendServerFin <==> taken && p.payload[0] == 1 && cfg.server.auther.Some?)
        && (t.stage == Finished(Success) || t.stage == SendServerFin || t.stage == Finished(Failure(ProtocolError)))
      case _ => t == s
  {
    if p.Message? {
      HasHead(p.payload, 1);
    }
    hide FinPayload;
  }

  lemma HasHead(m: seq<byte>, head: nat)
    ensures FinPayload(m, head).Some? ==> |m| >= head + 2
  {
  }

  /** Whatever comes, a key gets into a store only with an attestation that the store's verifier takes for
      that key, asked for by the one who has the store. */
  lemma KeysAreVerified(cfg: Config, s: Side, p: Packet)
    ensures ClientGets(cfg, s, p).store != s.store ==>
      && s.stage.ReadServerFin? && s.store.Some? && p.Message? && FinPayload(p.payload, 0).Some?
      && cfg.client.verify(FinPayload(p.payload, 0).value, cfg.server.key)
      && ClientGets(cfg, s, p).store == Some(s.store.value + {cfg.server.key})
    ensures ServerGets(cfg, s, p).store != s.store ==>
      && s.stage.ReadClientFin? && s.asks && s.store.Some? && p.Message? && FinPayload(p.payload, 1).Some?
      && cfg.server.verify(FinPayload(p.payload, 1).value, cfg.client.key)
      && ServerGets(cfg, s, p).store == Some(s.store.value + {cfg.client.key})
  {
    hide FinPayload;
    if p.Message? {
      HasHead(p.payload, 1);
    }
  }

  // ---- what every reachable state satisfies ----

  predicate ClientAsks(cfg: Config) { Asks(cfg.client, cfg.server.key) }

  predicate ServerAsks(cfg: Config) { Asks(cfg.server, cfg.client.key) }

  /** The attestation the client puts into CLIENTFIN. */
  function ClientAuth(cfg: Config): seq<byte> {
    if ServerAsks(cfg) && cfg.client.auther.Some? then cfg.client.auther.value else []
  }

  function ServerAuth(cfg: Config): seq<byte> {
    if cfg.server.auther.Some? then cfg.server.auther.value else []
  }

  /** The client gets as far as sending CLIENTFIN. */
  predicate ClientCanSend(cfg: Config) {
    ServerAsks(cfg) ==> cfg.client.auther.Some? && |cfg.client.auther.value| <= MAX_AUTH
  }

  /** CLIENTFIN fits the server's 1024-byte buffer: 3 bytes of framing and a 16-byte tag. */
  predicate ClientFinFits(cfg: Config) { |ClientAuth(cfg)| <= 1005 }

  predicate ServerAccepts(cfg: Config) { ServerAsks(cfg) ==> cfg.server.verify(ClientAuth(cfg), cfg.client.key) }

  predicate ServerCanSend(cfg: Config) {
    ClientAsks(cfg) ==> cfg.server.auther.Some? && |cfg.server.auther.value| <= MAX_AUTH
  }

  predicate ClientAccepts(cfg: Config) { ClientAsks(cfg) ==> cfg.client.verify(ServerAuth(cfg), cfg.server.key) }

  function StoreAfter(p: Party, remote: Key): Option<set<Key>> {
    if Asks(p, remote) then Some(p.store.value + {remote}) else p.store
  }

  function FirstPackets(): seq<Packet> { [Negotiation(0), Message(First, [])] }

  function SecondPackets(cfg: Config): seq<Packet> {
    [Negotiation(0), Message(Second, [0, 1] + Flag(ServerAsks(cfg)))]
  }

  function ClientFin(cfg: Config): Packet
    requires |ClientAuth(cfg)| <= MAX_AUTH
  {
    Message(Transport(0), Fin(Flag(ClientAsks(cfg)), ClientAuth(cfg)))
  }

  function ServerFin(cfg: Config): Packet
    requires |ServerAuth(cfg)| <= MAX_AUTH
  {
    Message(Transport(0), Fin([], ServerAuth(cfg)))
  }

  predicate Untouched(s: Side, p: Party) { s.sendN == 0 && s.recvN == 0 && s.store == p.store }

  predicate ClientSent(cfg: Config, c: Side) {
    ClientCanSend(cfg) && c.asks == ClientAsks(cfg) && c.sendN == 1 && c.recvN == 0 && c.store == cfg.client.store
  }

  predicate ServerGot(cfg: Config, s: Side) {
    && ClientCanSend(cfg) && ClientFinFits(cfg) && ServerAccepts(cfg)
    && s.recvN == 1 && s.store == StoreAfter(cfg.server, cfg.client.key)
  }

  /** The condition under which the two ends agree. */
  predicate Succeeds(cfg: Config) {
    ClientCanSend(cfg) && ClientFinFits(cfg) && ServerAccepts(cfg) && ServerCanSend(cfg) && ClientAccepts(cfg)
  }

  predicate Channels(g: State, toServer: seq<Packet>, toClient: seq<Packet>) {
    g.toServer == toServer && g.toClient == toClient
  }

  /** A side that failed, and why it had to. The server panics exactly on a CLIENTFIN that its
      buffer cannot hold. */
  predicate ServerFailed(cfg: Config, o: Outcome) {
    && o != Success
    && !(ClientCanSend(cfg) && ClientFinFits(cfg) && ServerAccepts(cfg) && ServerCanSend(cfg))
    && (o == Panic <==> ClientCanSend(cfg) && !ClientFinFits(cfg))
  }

  /** The reachable states: at most one side can move in each of them. */
  predicate Inv(cfg: Config, g: State) {
    var c, s := g.client, g.server;
    match (c.stage, s.stage)
    case (SendFirst, ReadNegotiation) => g == Init(cfg)
    case (ReadNegotiation, ReadNegotiation) =>
      Untouched(c, cfg.client) && Untouched(s, cfg.server) && Channels(g, FirstPackets(), [])
    case (ReadNegotiation, ReadFirst) =>
      Untouched(c, cfg.client) && Untouched(s, cfg.server) && Channels(g, FirstPackets()[1..], [])
    case (ReadNegotiation, SendSecond) =>
      Untouched(c, cfg.client) && Untouched(s, cfg.server) && s.asks == ServerAsks(cfg) && Channels(g, [], [])
    case (ReadNegotiation, ReadClientFin) =>
      Untouched(c, cfg.client) && Untouched(s, cfg.server) && s.asks == ServerAsks(cfg)
      && Channels(g, [], SecondPackets(cfg))
    case (ReadSecond, ReadClientFin) =>
      Untouched(c, cfg.client) && Untouched(s, cfg.server) && s.asks == ServerAsks(cfg)
      && Channels(g, [], SecondPackets(cfg)[1..])
    case (SendClientFin, ReadClientFin) =>
      Untouched(c, cfg.client) && Untouched(s, cfg.server) && s.asks == ServerAsks(cfg)
      && c.asks == ClientAsks(cfg) && c.sends == ServerAsks(cfg) && (c.sends ==> cfg.client.auther.Some?)
      && Channels(g, [], [])
    case (ReadServerFin, ReadClientFin) =>
      ClientSent(cfg, c) && c.asks && Untouched(s, cfg.server) && s.asks == ServerAsks(cfg)
      && Channels(g, [ClientFin(cfg)], [])
    case (Finished(o), ReadClientFin) =>
      Untouched(s, cfg.server) && s.asks == ServerAsks(cfg) &&
      (if o == Success then ClientSent(cfg, c) && !c.asks && Channels(g, [ClientFin(cfg)], [])
       else o != Panic && !ClientCanSend(cfg) && Channels(g, [], []))
    case (ReadServerFin, SendServerFin) =>
      ClientSent(cfg, c) && c.asks && ServerGot(cfg, s) && s.sendN == 0 && cfg.server.auther.Some?
      && Channels(g, [], [])
    case (ReadServerFin, Finished(o)) =>
      ClientSent(cfg, c) && c.asks &&
      (if o == Success then ServerGot(cfg, s) && s.sendN == 1 && ServerCanSend(cfg) && Channels(g, [], [ServerFin(cfg)])
       else ServerFailed(cfg, o) && g.toClient == [])
    case (Finished(o), Finished(q)) =>
      && o != Panic
      && (q == Success ==>
            && ServerGot(cfg, s) && ServerCanSend(cfg) && Channels(g, [], [])
            && s.sendN == (if ClientAsks(cfg) then 1 else 0)
            && (o == Success <==> ClientAccepts(cfg)))
      && (q != Success ==> ServerFailed(cfg, q) && (o == Success ==> !ClientAsks(cfg)))
      && (o == Success ==>
            && ClientCanSend(cfg) && c.sendN == 1
            && c.recvN == (if ClientAsks(cfg) then 1 else 0)
            && c.store == StoreAfter(cfg.client, cfg.server.key))
    case _ => false
  }

  function Rank(s: Stage): nat {
    match s
    case SendFirst => 5
    case ReadNegotiation => 5
    case ReadFirst => 4
    case ReadSecond => 3
    case SendSecond => 3
    case SendClientFin => 2
    case ReadClientFin => 2
    case ReadServerFin => 1
    case SendServerFin => 1
    case Finished(_) => 0
  }

  function Measure(g: State): nat {
    (if g.client.stage.SendFirst? then 1 else 0) + Rank(g.client.stage) + Rank(g.server.stage)
  }

  lemma FinRoundTrip(head: seq<byte>, payload: seq<byte>)
    requires |payload| <= MAX_AUTH
    ensures FinPayload(Fin(head, payload), |head|) == Some(payload)
    ensures head != [] ==> Fin(head, payload)[0] == head[0]
  {
    U16RoundTrip(|payload|);
    var m := Fin(head, payload);
    assert m[|head|..|head| + 2] == U16(|payload|);
    assert m[|head| + 2..] == payload;
  }

  /** A client's move keeps the invariant, and makes progress unless it is a no-op. */
  lemma ClientMoves(cfg: Config, g: State)
    requires Inv(cfg, g)
    ensures Inv(cfg, ClientStep(cfg, g))
    ensures ClientStep(cfg, g) == g || Measure(ClientStep(cfg, g)) < Measure(g)
  {
    if g.client.stage.ReadServerFin? {
      ClientReadsServerFin(cfg, g);
    } else if g.client.stage.SendClientFin? {
      ClientSendsFin(cfg, g);
    } else {
      ClientStarts(cfg, g);
    }
  }

  lemma ClientStarts(cfg: Config, g: State)
    requires Inv(cfg, g) && !g.client.stage.ReadServerFin? && !g.client.stage.SendClientFin?
    ensures Inv(cfg, ClientStep(cfg, g))
    ensures ClientStep(cfg, g) == g || Measure(ClientStep(cfg, g)) < Measure(g)
  {
    hide FinPayload;
    hide Fin;
    hide ServerFailed;
    match g.client.stage
    case ReadNegotiation =>
    case ReadSecond =>
    case _ =>
  }

  lemma ClientSendsFin(cfg: Config, g: State)
    requires Inv(cfg, g) && g.client.stage.SendClientFin?
    ensures Inv(cfg, ClientStep(cfg, g))
    ensures Measure(ClientStep(cfg, g)) < Measure(g)
  {
    assert forall p: Packet :: [] + [p] == [p];
  }

  lemma ClientReadsServerFin(cfg: Config, g: State)
    requires Inv(cfg, g) && g.client.stage.ReadServerFin?
    ensures Inv(cfg, ClientStep(cfg, g))
    ensures ClientStep(cfg, g) == g || Measure(ClientStep(cfg, g)) < Measure(g)
  {
    if g.server.stage == Finished(Success) {
      FinRoundTrip([], ServerAuth(cfg));
      assert g.toClient[1..] == [];
    }
  }

  lemma ServerMoves(cfg: Config, g: State)
    requires Inv(cfg, g)
    ensures Inv(cfg, ServerStep(cfg, g))
    ensures ServerStep(cfg, g) == g || Measure(ServerStep(cfg, g)) < Measure(g)
  {
    if g.server.stage.ReadClientFin? {
      if g.toServer != [] {
        ServerReadsClientFin(cfg, g);
      } else {
        ServerAwaitsClientFin(cfg, g);
      }
    } else if Reads(g.server) {
      ServerReadsFirst(cfg, g);
    } else {
      ServerSends(cfg, g);
    }
  }

  lemma ServerReadsFirst(cfg: Config, g: State)
    requires Inv(cfg, g) && (g.server.stage.ReadNegotiation? || g.server.stage.ReadFirst?)
    ensures Inv(cfg, ServerStep(cfg, g))
    ensures ServerStep(cfg, g) == g || Measure(ServerStep(cfg, g)) < Measure(g)
  {
    hide FinPayload;
    hide Fin;
    hide ServerFailed;
    if g.server.stage.ReadFirst? {
      assert FirstPackets()[1..] == [Message(First, [])];
    }
  }

  lemma ServerSends(cfg: Config, g: State)
    requires Inv(cfg, g) && !Reads(g.server)
    ensures Inv(cfg, ServerStep(cfg, g))
    ensures ServerStep(cfg, g) == g || Measure(ServerStep(cfg, g)) < Measure(g)
  {
    hide FinPayload;
    hide Fin;
    match g.server.stage
    case SendServerFin =>
    case _ =>
  }

  lemma ServerAwaitsClientFin(cfg: Config, g: State)
    requires Inv(cfg, g) && g.server.stage.ReadClientFin? && g.toServer == []
    ensures Inv(cfg, ServerStep(cfg, g))
    ensures ServerStep(cfg, g) == g || Measure(ServerStep(cfg, g)) < Measure(g)
  {
  }

  lemma ClientFinFacts(cfg: Config)
    requires |ClientAuth(cfg)| <= MAX_AUTH
    ensures WireSize(ClientFin(cfg)) == |ClientAuth(cfg)| + 19
    ensures FinPayload(ClientFin(cfg).payload, 1) == Some(ClientAuth(cfg))
    ensures |ClientFin(cfg).payload| > 0 && ClientFin(cfg).payload[0] == Flag(ClientAsks(cfg))[0]
  {
    FinRoundTrip(Flag(ClientAsks(cfg)), ClientAuth(cfg));
  }

  lemma ServerReadsClientFin(cfg: Config, g: State)
    requires Inv(cfg, g) && g.server.stage.ReadClientFin? && g.toServer != []
    ensures Inv(cfg, ServerStep(cfg, g))
    ensures Measure(ServerStep(cfg, g)) < Measure(g)
  {
    hide WireSize;
    hide Fin;
    hide FinPayload;
    var fin := ClientFin(cfg);
    assert g.toServer == [fin] && g.toServer[1..] == [];
    ClientFinFacts(cfg);
    if ClientFinFits(cfg) {
      assert ServerStep(cfg, g).server == ServerGets(cfg, g.server, fin);
    } else {
      assert ServerStep(cfg, g).server == Finish(g.server, Panic);
    }
  }

  lemma {:induction false} Reachable(cfg: Config, schedule: seq<bool>)
    ensures Inv(cfg, Run(cfg, schedule))
  {
    if schedule != [] {
      var before := schedule[..|schedule| - 1];
      Reachable(cfg, before);
      ClientMoves(cfg, Run(cfg, before));
      ServerMoves(cfg, Run(cfg, before));
    }
  }

  /** No deadlock: in every reachable state both ends are finished or one of them can move, and
      every move brings the end closer. */
  lemma NeverDeadlocks(cfg: Config, schedule: seq<bool>)
    ensures
      var g := Run(cfg, schedule);
      (g.client.stage.Finished? && g.server.stage.Finished?)
      || Measure(ClientStep(cfg, g)) < Measure(g) || Measure(ServerStep(cfg, g)) < Measure(g)
  {
    Reachable(cfg, schedule);
    var g := Run(cfg, schedule);
    ClientMoves(cfg, g);
    ServerMoves(cfg, g);
    SomeoneMoves(cfg, g);
    hide Inv;
    hide ClientStep;
    hide ServerStep;
  }

  lemma SomeoneMoves(cfg: Config, g: State)
    requires Inv(cfg, g)
    ensures (g.client.stage.Finished? && g.server.stage.Finished?) || ClientStep(cfg, g) != g || ServerStep(cfg, g) != g
  {
    hide ClientGets;
    hide ServerGets;
    hide Fin;
    hide ServerFailed;
  }

  /** Agreement, for every schedule on which both ends have finished. */
  lemma Agreement(cfg: Config, schedule: seq<bool>)
    requires Run(cfg, schedule).client.stage.Finished? && Run(cfg, schedule).server.stage.Finished?
    ensures
      var g := Run(cfg, schedule);
      // both succeed exactly when the configuration allows it
      && (g.client.stage == g.server.stage == Finished(Success) <==> Succeeds(cfg))
      // then both directions are fully read and the counters are those of the peer
      && (Succeeds(cfg) ==>
            && g.toServer == g.toClient == []
            && g.client.sendN == g.server.recvN && g.server.sendN == g.client.recvN)
      // a side that succeeds with a store has the peer's key in it
      && (g.client.stage == Finished(Success) && cfg.client.store.Some? ==>
            g.client.store == Some(cfg.client.store.value + {cfg.server.key}))
      && (g.server.stage == Finished(Success) && cfg.server.store.Some? ==>
            g.server.store == Some(cfg.server.store.value + {cfg.client.key}))
      // the server panics exactly on an attestation it asked for, that the client may send,
      // and that is longer than its buffer holds
      && (g.server.stage == Finished(Panic) <==>
            ServerAsks(cfg) && cfg.client.auther.Some? && 1005 < |cfg.client.auther.value| <= MAX_AUTH)
      && g.client.stage != Finished(Panic)
  {
    Reachable(cfg, schedule);
    var g := Run(cfg, schedule);
    if cfg.client.store.Some? && cfg.server.key in cfg.client.store.value {
      assert cfg.client.store.value + {cfg.server.key} == cfg.client.store.value;
    }
    if cfg.server.store.Some? && cfg.client.key in cfg.server.store.value {
      assert cfg.server.store.value + {cfg.client.key} == cfg.server.store.value;
    }
  }

  /** The server sends SERVERFIN, or has sent it unread, only to a client that awaits it; and a client
      that awaits it has it under way, or a server that is about to send it, has yet to read the
      request, or has failed. */
  lemma ServerFinWhenAwaited(cfg: Config, schedule: seq<bool>)
    ensures
      var g := Run(cfg, schedule);
      && (g.server.stage.SendServerFin? ==> g.client.stage.ReadServerFin?)
      && (g.server.stage == Finished(Success) && g.toClient != [] ==>
            g.client.stage.ReadServerFin? && |g.toClient| == 1)
      && (g.client.stage.ReadServerFin? ==>
            || (g.server.stage == Finished(Success) && |g.toClient| == 1)
            || g.server.stage.SendServerFin?
            || (g.server.stage.ReadClientFin? && |g.toServer| == 1)
            || Dropped(g.server))
      && (g.server.stage == Finished(Success) && g.client.stage == Finished(Success) ==> g.toClient == [])
  {
    Reachable(cfg, schedule);
  }
}
