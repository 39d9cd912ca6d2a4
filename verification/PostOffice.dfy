/** Mail over a network that loses packets: network/post.cc over machine/network.cc, for one
    receiving machine and any number of senders. */
module PostOffices {
  import opened BitWords
  import opened Codec

  // ---- Packets on the wire ----

  datatype PacketHeader = PacketHeader(to: int32, from: int32, length: uint32)

  datatype MailHeader = MailHeader(to: int32, from: int32, length: uint32)

  datatype Mail = Mail(packet: PacketHeader, header: MailHeader, data: seq<byte>)

  /** What PostOffice::Send lets through to machine `ident` with this many mailboxes: MaxMailSize is
      40 bytes, and a mail header takes 12. */
  predicate Sendable(m: Mail, ident: int, boxes: nat) {
    && |m.data| == m.header.length <= 40 && 0 <= m.header.to < boxes
    && m.packet.to == ident && m.packet.length == m.header.length + 12
  }

  /** The packet header and the mail header as words. */
  function HeaderWords(p: PacketHeader, h: MailHeader): (ws: seq<uint32>)
    ensures |ws| == 6
  {
    [Unsigned(p.to), Unsigned(p.from), p.length, Unsigned(h.to), Unsigned(h.from), h.length]
  }

  /** MaxWireSize is 64; junk is what the rest of the buffer happens to hold. */
  function ToWire(m: Mail, junk: nat -> byte): (w: seq<byte>)
    requires |m.data| <= 40
    ensures |w| == 64
  {
    ToBytes(HeaderWords(m.packet, m.header)) + m.data + seq<byte>(40 - |m.data|, i requires 0 <= i => junk(i))
  }

  function FromWire(w: seq<byte>): Mail
    requires |w| == 64
  {
    var ws := ToWords(w[..24]);
    var h := MailHeader(Signed(ws[3]), Signed(ws[4]), ws[5]);
    Mail(PacketHeader(Signed(ws[0]), Signed(ws[1]), ws[2]), h, w[24..24 + if h.length <= 40 then h.length else 40])
  }

  /** A mail that goes onto the wire comes off it uncorrupted, whatever pads it. */
  lemma WireRoundTrip(m: Mail, junk: nat -> byte)
    requires |m.data| == m.header.length <= 40
    ensures FromWire(ToWire(m, junk)) == m
  {
    var ws, w := HeaderWords(m.packet, m.header), ToWire(m, junk);
    assert w[..24] == ToBytes(ws);
    StoreThenLoad(ws);
    assert w[24..24 + m.header.length] == m.data;
  }

  // ---- The system ----

  /** The postal worker waits, has been woken, or holds a mail it is about to put into its box. */
  datatype Worker = Waiting | Woken | Holding(mail: Mail)

  /** sent logs what the senders gave their networks, in order, and whether it survived; socket is the
      receiving machine's queue of packets; inbox is empty or holds one; available is the value of
      messageAvailable; received logs what Receive has returned from each box. */
  datatype State = State(sent: seq<(Mail, bool)>, socket: seq<seq<byte>>, inbox: seq<Mail>, available: nat,
                         worker: Worker, boxes: seq<seq<Mail>>, received: seq<seq<Mail>>)

  datatype Action = Send(mail: Mail, survives: bool, junk: nat -> byte) | Poll | Wake | Take | Put | Receive(box: nat)

  predicate Shaped(s: State) {
    |s.boxes| == |s.received| && forall i :: 0 <= i < |s.socket| ==> |s.socket[i]| == 64
  }

  predicate Enabled(s: State, a: Action, ident: int) {
    match a
    case Send(m, _, _) => Sendable(m, ident, |s.boxes|)
    case Poll => s.inbox == [] && s.socket != []
    case Wake => s.worker == Waiting && s.available > 0
    case Take => s.worker == Woken
    case Put => s.worker.Holding?
    case Receive(b) => b < |s.boxes| && s.boxes[b] != []
  }

  /** Network::Receive with no packet there would hand over a stale buffer, and a box number out of
      range trips an ASSERT: neither has a next state here. */
  predicate Safe(s: State, a: Action) {
    match a
    case Take => s.inbox != []
    case Put => s.worker.Holding? && 0 <= s.worker.mail.header.to < |s.boxes|
    case _ => true
  }

  function Next(s: State, a: Action, ident: int): State
    requires Shaped(s) && Enabled(s, a, ident) && Safe(s, a)
  {
    match a
    case Send(m, survives, junk) =>
      s.(sent := s.sent + [(m, survives)], socket := if survives then s.socket + [ToWire(m, junk)] else s.socket)
    case Poll => s.(socket := s.socket[1..], inbox := [FromWire(s.socket[0])], available := s.available + 1)
    case Wake => s.(available := s.available - 1, worker := Woken)
    case Take => s.(inbox := [], worker := Holding(s.inbox[0]))
    case Put =>
      var b := s.worker.mail.header.to;
      s.(boxes := s.boxes[b := s.boxes[b] + [s.worker.mail]], worker := Waiting)
    case Receive(b) =>
      s.(received := s.received[b := s.received[b] + [s.boxes[b][0]]], boxes := s.boxes[b := s.boxes[b][1..]])
  }

  // ---- What is conserved ----

  function ForBox(ms: seq<Mail>, b: int): seq<Mail> {
    if ms == [] then [] else (if ms[0].header.to == b then [ms[0]] else []) + ForBox(ms[1..], b)
  }

  function Survivors(sent: seq<(Mail, bool)>): seq<Mail> {
    if sent == [] then [] else (if sent[0].1 then [sent[0].0] else []) + Survivors(sent[1..])
  }

  function OffWire(socket: seq<seq<byte>>): (ms: seq<Mail>)
    requires forall i :: 0 <= i < |socket| ==> |socket[i]| == 64
    ensures |ms| == |socket|
  {
    if socket == [] then [] else [FromWire(socket[0])] + OffWire(socket[1..])
  }

  /** What is on its way to the boxes, first come first. */
  function Transit(s: State): seq<Mail>
    requires Shaped(s)
  {
    (if s.worker.Holding? then [s.worker.mail] else []) + s.inbox + OffWire(s.socket)
  }

  /** Box by box, what has been received, what waits in the box and what is on its way make up what
      the network did not lose, in the order in which it was sent. */
  predicate Conserved(s: State, b: nat)
    requires Shaped(s) && b < |s.boxes|
  {
    s.received[b] + s.boxes[b] + ForBox(Transit(s), b) == ForBox(Survivors(s.sent), b)
  }

  ghost predicate Inv(s: State, ident: int) {
    && Shaped(s)
    && (forall b :: 0 <= b < |s.boxes| ==> Conserved(s, b))
    && (forall m :: m in Transit(s) ==> Sendable(m, ident, |s.boxes|))
    && |s.inbox| == s.available + (if s.worker.Woken? then 1 else 0) <= 1
  }

  lemma {:induction false} ForBoxConcat(xs: seq<Mail>, ys: seq<Mail>, b: int)
    ensures ForBox(xs + ys, b) == ForBox(xs, b) + ForBox(ys, b)
  {
    if xs != [] {
      ForBoxConcat(xs[1..], ys, b);
      assert (xs + ys)[1..] == xs[1..] + ys;
    } else {
      assert xs + ys == ys;
    }
  }

  lemma {:induction false} SurvivorsConcat(xs: seq<(Mail, bool)>, x: (Mail, bool))
    ensures Survivors(xs + [x]) == Survivors(xs) + if x.1 then [x.0] else []
  {
    if xs != [] {
      SurvivorsConcat(xs[1..], x);
      assert (xs + [x])[1..] == xs[1..] + [x];
    }
  }

  lemma {:induction false} OffWireConcat(socket: seq<seq<byte>>, w: seq<byte>)
    requires |w| == 64 && forall i :: 0 <= i < |socket| ==> |socket[i]| == 64
    ensures OffWire(socket + [w]) == OffWire(socket) + [FromWire(w)]
  {
    if socket != [] {
      OffWireConcat(socket[1..], w);
      assert (socket + [w])[1..] == socket[1..] + [w];
    }
  }

  /** No step ever finds the inbox empty or a box number out of range. */
  lemma {:induction false} AlwaysSafe(s: State, a: Action, ident: int)
    requires Inv(s, ident) && Enabled(s, a, ident)
    ensures Safe(s, a)
  {
    if a.Put? {
      assert s.worker.mail == Transit(s)[0];
      assert s.worker.mail in Transit(s);
    }
  }

  /** A step moves mail along, and only a send that survives adds to it. */
  lemma {:induction false} TransitAfter(s: State, a: Action, ident: int)
    requires Inv(s, ident) && Enabled(s, a, ident) && Safe(s, a)
    ensures var s' := Next(s, a, ident);
            && Shaped(s')
            && match a
               case Send(m, survives, _) => Transit(s') == Transit(s) + if survives then [m] else []
               case Put => Transit(s) == [s.worker.mail] + Transit(s')
               case _ => Transit(s') == Transit(s)
  {
    var s' := Next(s, a, ident);
    match a
    case Send(m, survives, junk) => SendTransit(s, m, survives, junk, ident);
    case Poll => PollTransit(s, ident);
    case Wake =>
    case Take => assert s.inbox == [s.inbox[0]] && s.worker == Woken;
    case Put =>
    case Receive(b) =>
  }

  lemma {:induction false} SendTransit(s: State, m: Mail, survives: bool, junk: nat -> byte, ident: int)
    requires Shaped(s) && Sendable(m, ident, |s.boxes|)
    ensures var s' := Next(s, Send(m, survives, junk), ident);
            Shaped(s') && Transit(s') == Transit(s) + if survives then [m] else []
  {
    WireRoundTrip(m, junk);
    OffWireConcat(s.socket, ToWire(m, junk));
  }

  lemma {:induction false} PollTransit(s: State, ident: int)
    requires Shaped(s) && s.inbox == [] && s.socket != []
    ensures var s' := Next(s, Poll, ident);
            Shaped(s') && Transit(s') == Transit(s)
  {
  }

  /** The two sides of Conserved grow alike. */
  lemma {:induction false} BothGrow(kept: seq<Mail>, transit: seq<Mail>, log: seq<Mail>, more: seq<Mail>, b: nat)
    requires kept + ForBox(transit, b) == ForBox(log, b)
    ensures kept + ForBox(transit + more, b) == ForBox(log + more, b)
  {
    ForBoxConcat(transit, more, b);
    ForBoxConcat(log, more, b);
  }

  lemma {:induction false} KeepConserved(s: State, a: Action, ident: int, b: nat)
    requires Inv(s, ident) && Enabled(s, a, ident) && Safe(s, a) && b < |s.boxes| && Shaped(Next(s, a, ident))
    ensures Conserved(Next(s, a, ident), b)
  {
    var s' := Next(s, a, ident);
    TransitAfter(s, a, ident);
    assert Conserved(s, b);
    match a
    case Send(m, survives, _) =>
      SurvivorsConcat(s.sent, (m, survives));
      BothGrow(s.received[b] + s.boxes[b], Transit(s), Survivors(s.sent), if survives then [m] else [], b);
    case Poll =>
    case Wake =>
    case Take =>
    case Put => PutMoves(s.received[b], s.boxes[b], s.worker.mail, Transit(s'), b);
    case Receive(box) => ReceiveMoves(s.received[box], s.boxes[box], ForBox(Transit(s), box));
  }

  lemma PutMoves(received: seq<Mail>, box: seq<Mail>, m: Mail, rest: seq<Mail>, b: nat)
    ensures received + box + ForBox([m] + rest, b)
            == received + (if m.header.to == b then box + [m] else box) + ForBox(rest, b)
  {
    assert ([m] + rest)[1..] == rest;
  }

  lemma ReceiveMoves(received: seq<Mail>, box: seq<Mail>, rest: seq<Mail>)
    requires box != []
    ensures received + box + rest == (received + [box[0]]) + box[1..] + rest
  {
    assert box == [box[0]] + box[1..];
  }

  lemma {:induction false} NextInv(s: State, a: Action, ident: int)
    requires Inv(s, ident) && Enabled(s, a, ident)
    ensures Safe(s, a) && Inv(Next(s, a, ident), ident)
  {
    AlwaysSafe(s, a, ident);
    TransitAfter(s, a, ident);
    var s' := Next(s, a, ident);
    assert |s'.boxes| == |s.boxes|;
    forall b | 0 <= b < |s'.boxes|
      ensures Conserved(s', b)
    {
      KeepConserved(s, a, ident, b);
    }
  }

  // ---- Whole runs ----

  predicate Start(s: State, boxes: nat) {
    && s.sent == [] && s.socket == [] && s.inbox == [] && s.available == 0 && s.worker == Waiting
    && |s.boxes| == |s.received| == boxes && forall b :: 0 <= b < boxes ==> s.boxes[b] == [] && s.received[b] == []
  }

  ghost predicate Runs(s: State, actions: seq<Action>, ident: int, e: State)
    decreases |actions|
  {
    if actions == [] then e == s
    else Shaped(s) && Enabled(s, actions[0], ident) && Safe(s, actions[0]) && Runs(Next(s, actions[0], ident), actions[1..], ident, e)
  }

  lemma {:induction false} RunInv(s: State, actions: seq<Action>, ident: int, e: State)
    requires Inv(s, ident) && Runs(s, actions, ident, e)
    ensures Inv(e, ident) && |e.boxes| == |s.boxes|
    decreases |actions|
  {
    if actions != [] {
      NextInv(s, actions[0], ident);
      assert |Next(s, actions[0], ident).boxes| == |s.boxes|;
      RunInv(Next(s, actions[0], ident), actions[1..], ident, e);
    }
  }

  /** Where in the log the surviving mails from one machine to one box are. */
  function Places(sent: seq<(Mail, bool)>, n: nat, b: int, from: int): seq<nat>
    requires n <= |sent|
  {
    if n == 0 then []
    else
      var (m, survives) := sent[n - 1];
      Places(sent, n - 1, b, from) + if survives && m.header.to == b && m.packet.from == from then [n - 1] else []
  }

  function FromMachine(ms: seq<Mail>, from: int): seq<Mail> {
    if ms == [] then [] else (if ms[0].packet.from == from then [ms[0]] else []) + FromMachine(ms[1..], from)
  }

  lemma {:induction false} FromMachineConcat(xs: seq<Mail>, ys: seq<Mail>, from: int)
    ensures FromMachine(xs + ys, from) == FromMachine(xs, from) + FromMachine(ys, from)
  {
    if xs != [] {
      FromMachineConcat(xs[1..], ys, from);
      assert (xs + ys)[1..] == xs[1..] + ys;
    } else {
      assert xs + ys == ys;
    }
  }

  /** The mails at those places. */
  function Chosen(sent: seq<(Mail, bool)>, n: nat, b: int, from: int): seq<Mail>
    requires n <= |sent|
  {
    if n == 0 then []
    else
      var (m, survives) := sent[n - 1];
      Chosen(sent, n - 1, b, from) + if survives && m.header.to == b && m.packet.from == from then [m] else []
  }

  lemma {:induction false} PlacesMeaning(sent: seq<(Mail, bool)>, n: nat, b: int, from: int)
    requires n <= |sent|
    ensures var ps, ms := Places(sent, n, b, from), Chosen(sent, n, b, from);
            && |ps| == |ms| && (forall i :: 0 <= i < |ps| ==> ps[i] < n && sent[ps[i]].0 == ms[i])
            && (forall i, j :: 0 <= i < j < |ps| ==> ps[i] < ps[j])
  {
    if n > 0 {
      PlacesMeaning(sent, n - 1, b, from);
    }
  }

  /** Choosing from the log is choosing the survivors for the box and then those from the machine. */
  lemma {:induction false} ChosenMeaning(sent: seq<(Mail, bool)>, n: nat, b: int, from: int)
    requires n <= |sent|
    ensures Chosen(sent, n, b, from) == FromMachine(ForBox(Survivors(sent[..n]), b), from)
  {
    if n > 0 {
      ChosenMeaning(sent, n - 1, b, from);
      assert sent[..n] == sent[..n - 1] + [sent[n - 1]];
      var (m, survives) := sent[n - 1];
      var extra := if survives then [m] else [];
      SurvivorsConcat(sent[..n - 1], sent[n - 1]);
      ForBoxConcat(Survivors(sent[..n - 1]), extra, b);
      FromMachineConcat(ForBox(Survivors(sent[..n - 1]), b), ForBox(extra, b), from);
    }
  }

  /** In every run, what has been received in a box from one machine is an initial part of what that
      machine sent to the box and the network did not lose: in order, uncorrupted, and each mail at
      most once, since the places in the log are strictly increasing. */
  lemma {:induction false} DeliveredInOrder(s: State, actions: seq<Action>, ident: int, e: State, b: nat, from: int)
    requires Start(s, |s.boxes|) && Runs(s, actions, ident, e) && b < |s.boxes|
    ensures Shaped(e) && |e.boxes| == |s.boxes|
    ensures var got, ps := FromMachine(e.received[b], from), Places(e.sent, |e.sent|, b, from);
            && |got| <= |ps| && (forall i :: 0 <= i < |got| ==> ps[i] < |e.sent| && e.sent[ps[i]].0 == got[i])
            && (forall i, j :: 0 <= i < j < |ps| ==> ps[i] < ps[j])
  {
    RunInv(s, actions, ident, e);
    assert Conserved(e, b);
    DeliveredFrom(e.sent, e.received[b], e.boxes[b], ForBox(Transit(e), b), b, from);
  }

  lemma {:induction false} DeliveredFrom(sent: seq<(Mail, bool)>, received: seq<Mail>, box: seq<Mail>, rest: seq<Mail>, b: nat, from: int)
    requires received + box + rest == ForBox(Survivors(sent), b)
    ensures var got, ps := FromMachine(received, from), Places(sent, |sent|, b, from);
            && |got| <= |ps| && (forall i :: 0 <= i < |got| ==> ps[i] < |sent| && sent[ps[i]].0 == got[i])
            && (forall i, j :: 0 <= i < j < |ps| ==> ps[i] < ps[j])
  {
    assert received + (box + rest) == ForBox(Survivors(sent), b);
    FromMachineConcat(received, box + rest, from);
    PlacesMeaning(sent, |sent|, b, from);
    ChosenMeaning(sent, |sent|, b, from);
    assert sent[..|sent|] == sent;
  }

  /** In no run does the worker collect from an empty inbox or meet a box number out of range. */
  lemma {:induction false} NeverTrips(s: State, actions: seq<Action>, ident: int, e: State, a: Action)
    requires Start(s, |s.boxes|) && Runs(s, actions, ident, e) && Enabled(e, a, ident)
    ensures Safe(e, a)
  {
    RunInv(s, actions, ident, e);
    AlwaysSafe(e, a, ident);
  }
}

