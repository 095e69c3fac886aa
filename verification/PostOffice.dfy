/** The post office (network/post.cc) over the unreliable network device (machine/network.cc), seen from one receiving
    machine. Threads of any number of machines send; the link may lose packets but keeps their order. A mailbox is a
    synchronized list, so that it is first in, first out. */
module PostOffices {
  import opened Bytes
  import Locks
  import opened Mails
  import opened Sequences
  import Runs
  import Senders

  // ---- the receiving machine ----

  /** The postal worker: waiting, past its P, or with a packet in its buffer. */
  datatype Worker = Waiting | Woken | Holding(header: Header, buffer: seq<byte>)

  /** `senders` has the machines that send, by host, and `sent` the messages for this machine in the order in which they
      were handed to the network. For the proof: `flight` numbers the messages in the worker's buffer, the inbox and on
      the wire by their place in `sent`, `arrived` those that were put into each box. */
  datatype State = State(host: int, senders: map<int, Senders.State>, sent: seq<Mail>, wire: seq<seq<byte>>,
                         inHdr: Header, inbox: seq<byte>, available: int, worker: Worker, boxes: seq<seq<Mail>>,
                         taken: seq<seq<Mail>>, asserts: bool, flight: seq<nat>, arrived: seq<seq<nat>>)

  /** Thread `t` of machine `h` hands its message to the network. */
  ghost predicate Send(v: State, w: State, h: int, t: Locks.Tid, padding: seq<byte>, lost: bool)
  {
    && h in v.senders && h in w.senders && Senders.Transmit(v.senders[h], w.senders[h], t)
    && var m, u := v.senders[h].pcs[t].m, v.(senders := v.senders[h := w.senders[h]]);
       && |padding| == MAX_PACKET_SIZE - m.packet.length
       && w == if m.packet.to != v.host then u
               else if lost then u.(sent := v.sent + [m])
               else u.(sent := v.sent + [m], wire := v.wire + [Wire(m, padding)], flight := v.flight + [|v.sent|])
  }

  ghost predicate SenderSteps(v: State, w: State, h: int)
  {
    && h in v.senders && h in w.senders && Senders.QuietStep(v.senders[h], w.senders[h])
    && w == v.(senders := v.senders[h := w.senders[h]])
  }

  /** NetworkInput::CallBack, then PostOfficeInput::CallBack. */
  ghost predicate CallBack(v: State, w: State)
  {
    && v.wire != [] && v.inHdr.length == 0 && |v.wire[0]| == MAX_WIRE_SIZE && |v.inbox| == MAX_PACKET_SIZE
    && var header := DecodeHeader(v.wire[0]);
       w == if header.to != v.host || header.length > MAX_PACKET_SIZE then v.(asserts := false)
            else v.(wire := v.wire[1..], inHdr := header, available := v.available + 1,
                    inbox := Splice(v.inbox, 0, v.wire[0][HEADER_SIZE..HEADER_SIZE + header.length]))
  }

  ghost predicate WorkerWakes(v: State, w: State)
  {
    v.worker == Waiting && v.available > 0 && w == v.(available := v.available - 1, worker := Woken)
  }

  /** NetworkInput::Receive; nothing can interrupt it. An empty packet has length 0. */
  ghost predicate WorkerReceives(v: State, w: State)
  {
    && v.worker == Woken && v.inHdr.length <= |v.inbox|
    && w == v.(inHdr := v.inHdr.(length := 0), worker := Holding(v.inHdr, v.inbox[..v.inHdr.length]),
               asserts := v.asserts && v.inHdr.length > 0)
  }

  /** The rest of PostalDelivery's loop; a box that does not exist stops the machine. */
  ghost predicate WorkerDelivers(v: State, w: State)
  {
    && v.worker.Holding? && |v.worker.buffer| >= HEADER_SIZE && |v.arrived| == |v.boxes|
    && var mail := DecodeHeader(v.worker.buffer);
       && 0 <= mail.to < |v.boxes|
       && w == if mail.length > MAX_MAIL_SIZE || HEADER_SIZE + mail.length > |v.worker.buffer| then v.(asserts := false)
               else var m := Mail(v.worker.header, mail, v.worker.buffer[HEADER_SIZE..HEADER_SIZE + mail.length]);
                    v.(worker := Waiting, boxes := v.boxes[mail.to := v.boxes[mail.to] + [m]],
                       flight := if v.flight == [] then [] else v.flight[1..],
                       arrived := if v.flight == [] then v.arrived
                                  else v.arrived[mail.to := v.arrived[mail.to] + [v.flight[0]]])
  }

  /** PostOfficeInput::Receive of some thread. */
  ghost predicate Receive(v: State, w: State, box: nat)
  {
    && box < |v.boxes| == |v.taken| && v.boxes[box] != []
    && w == v.(boxes := v.boxes[box := v.boxes[box][1..]], taken := v.taken[box := v.taken[box] + [v.boxes[box][0]]])
  }

  ghost predicate Step(v: State, w: State)
  {
    || (exists h, t, padding, lost :: Send(v, w, h, t, padding, lost)) || (exists h :: SenderSteps(v, w, h))
    || CallBack(v, w) || WorkerWakes(v, w) || WorkerReceives(v, w) || WorkerDelivers(v, w)
    || (exists box :: Receive(v, w, box))
  }

  ghost predicate Init(v: State)
  {
    && (forall h :: h in v.senders ==> Senders.Init(v.senders[h], h))
    && v.sent == [] && v.wire == [] && v.inHdr.length == 0 && |v.inbox| == MAX_PACKET_SIZE && v.available == 0
    && v.worker == Waiting && v.asserts && v.flight == [] && |v.boxes| == |v.taken| == |v.arrived|
    && forall b :: 0 <= b < |v.boxes| ==> v.boxes[b] == [] && v.taken[b] == [] && v.arrived[b] == []
  }

  // ---- what every step keeps ----

  ghost predicate Increasing(s: seq<nat>)
  {
    forall i, j :: 0 <= i < j < |s| ==> s[i] < s[j]
  }

  /** How many messages the worker and the inbox hold. */
  ghost function InHand(v: State): nat
  {
    if v.worker.Holding? then 1 else 0
  }

  ghost function InBox(v: State): nat
  {
    if v.inHdr.length != 0 then 1 else 0
  }

  /** The buffer or the inbox holds message `m`. */
  ghost predicate Carries(header: Header, bytes: seq<byte>, m: Mail)
  {
    header == m.packet && header.length <= |bytes| && bytes[..header.length] == Payload(m)
  }

  ghost predicate OnWire(bytes: seq<byte>, m: Mail)
  {
    |bytes| == MAX_WIRE_SIZE && exists padding :: bytes == Wire(m, padding)
  }

  ghost predicate InFlight(v: State)
  {
    && |v.flight| == InHand(v) + InBox(v) + |v.wire| && |v.inbox| == MAX_PACKET_SIZE
    && Increasing(v.flight) && (forall k :: 0 <= k < |v.flight| ==> v.flight[k] < |v.sent|)
    && (forall k :: 0 <= k < |v.sent| ==> Sendable(v.sent[k]) && v.sent[k].packet.to == v.host)
    && (v.worker.Holding? ==> Carries(v.worker.header, v.worker.buffer, v.sent[v.flight[0]]))
    && (v.inHdr.length != 0 ==> Carries(v.inHdr, v.inbox, v.sent[v.flight[InHand(v)]]))
    && (forall k :: 0 <= k < |v.wire| ==> OnWire(v.wire[k], v.sent[v.flight[InHand(v) + InBox(v) + k]]))
  }

  /** The semaphore announces exactly the packet in the inbox. */
  ghost predicate Announced(v: State)
  {
    v.available >= 0 && v.available + (if v.worker == Woken then 1 else 0) == InBox(v)
  }

  /** What was put into box `b`, in this order, is from the messages sent to it, in the order of sending. */
  ghost predicate BoxRight(v: State, b: nat)
    requires b < |v.boxes| == |v.taken| == |v.arrived|
  {
    var put, from := v.taken[b] + v.boxes[b], v.arrived[b];
    && |put| == |from| && Increasing(from)
    && (forall k :: 0 <= k < |from| ==> from[k] < |v.sent| && v.sent[from[k]] == put[k] && put[k].mail.to == b)
    && (forall k, j :: 0 <= k < |from| && 0 <= j < |v.flight| ==> from[k] < v.flight[j])
  }

  ghost predicate BoxesRight(v: State)
  {
    |v.boxes| == |v.taken| == |v.arrived| && forall b :: 0 <= b < |v.boxes| ==> BoxRight(v, b)
  }

  /** The messages of machine `from` in `s` to box `box` of machine `to`. */
  ghost function Share(s: seq<Mail>, from: int, to: int, box: int): seq<Mail>
  {
    if s == [] then []
    else var rest := Share(s[..|s| - 1], from, to, box);
         var last := s[|s| - 1];
         if last.packet.from == from && last.packet.to == to && last.mail.to == box then rest + [last] else rest
  }

  /** `sent` has, of every sender, what its network device was given for this machine. */
  ghost predicate SenderRight(v: State, h: int)
    requires h in v.senders
  {
    && Senders.Inv(v.senders[h]) && v.senders[h].host == h
    && forall b :: Share(v.sent, h, v.host, b) == Share(v.senders[h].device.log, h, v.host, b)
  }

  ghost predicate SendersRight(v: State)
  {
    forall h :: h in v.senders ==> SenderRight(v, h)
  }

  ghost predicate Inv(v: State)
  {
    v.asserts && InFlight(v) && Announced(v) && BoxesRight(v) && SendersRight(v)
  }

  lemma InitInv(v: State)
    requires Init(v)
    ensures Inv(v)
  {
    hide Senders.Init, Senders.Inv;
    forall h | h in v.senders ensures SenderRight(v, h) {
      SenderStarts(v.senders[h], h);
    }
  }

  lemma SenderStarts(s: Senders.State, h: int)
    requires Senders.Init(s, h)
    ensures Senders.Inv(s) && s.host == h && s.device.log == []
  {
    Senders.InitInv(s, h);
  }

  // ---- the steps ----

  /** What the step does to a message that is for this machine. */
  ghost predicate Put(v: State, w: State, m: Mail, padding: seq<byte>, lost: bool)
  {
    && Sendable(m) && m.packet.to == v.host && |padding| == MAX_PACKET_SIZE - m.packet.length
    && w == if lost then v.(senders := w.senders, sent := v.sent + [m])
            else v.(senders := w.senders, sent := v.sent + [m], wire := v.wire + [Wire(m, padding)],
                    flight := v.flight + [|v.sent|])
  }

  lemma SendKeeps(v: State, w: State, h: int, t: Locks.Tid, padding: seq<byte>, lost: bool)
    requires Inv(v) && Send(v, w, h, t, padding, lost)
    ensures Inv(w)
  {
    hide Senders.Inv, Senders.Transmit, Sendable, Wire, InFlight, Announced, BoxRight, Share, SenderRight;
    assert SenderRight(v, h);
    TransmitsSendable(v, w, h, t);
    var m := v.senders[h].pcs[t].m;
    if m.packet.to == v.host {
      PutKeeps(v, w, m, padding, lost);
    } else {
      SameFlight(v, w);
      forall b | 0 <= b < |w.boxes| ensures BoxRight(w, b) {
        assert BoxRight(v, b);
        SameBox(v, w, b);
      }
    }
    forall x | x in w.senders ensures SenderRight(w, x) {
      assert SenderRight(v, x);
      SendSender(v, w, h, t, m, x);
    }
  }

  lemma TransmitsSendable(v: State, w: State, h: int, t: Locks.Tid)
    requires h in v.senders && h in w.senders && SenderRight(v, h) && Senders.Transmit(v.senders[h], w.senders[h], t)
    ensures t in v.senders[h].pcs && var m := v.senders[h].pcs[t].m; Sendable(m) && m.packet.from == h
    ensures w.senders[h].device.log == v.senders[h].device.log + [v.senders[h].pcs[t].m]
    ensures Senders.Inv(w.senders[h]) && w.senders[h].host == h
  {
    hide Share, Sendable, Locks.Used;
    var s := v.senders[h];
    assert Senders.InTouch(s.host, s.device, s.messageSent, s.pcs[t]);
    hide Senders.Inv;
    Senders.StepKeeps(s, w.senders[h]);
  }

  lemma SendSender(v: State, w: State, h: int, t: Locks.Tid, m: Mail, x: int)
    requires h in v.senders && h in w.senders && w.host == v.host && w.senders == v.senders[h := w.senders[h]]
    requires x in v.senders && SenderRight(v, x) && Senders.Inv(w.senders[h]) && w.senders[h].host == h
    requires w.senders[h].device.log == v.senders[h].device.log + [m] && m.packet.from == h
    requires w.sent == if m.packet.to == v.host then v.sent + [m] else v.sent
    ensures SenderRight(w, x)
  {
    hide Senders.Inv;
    forall b ensures Share(w.sent, x, w.host, b) == Share(w.senders[x].device.log, x, w.host, b) {
      assert Share(v.sent, x, v.host, b) == Share(v.senders[x].device.log, x, v.host, b);
      ShareGrows(v.sent, m, x, v.host, b);
      ShareGrows(v.senders[h].device.log, m, x, v.host, b);
    }
  }

  lemma ShareGrows(s: seq<Mail>, m: Mail, from: int, to: int, box: int)
    ensures Share(s + [m], from, to, box) == Share(s, from, to, box) +
              (if m.packet.from == from && m.packet.to == to && m.mail.to == box then [m] else [])
  {
    assert (s + [m])[..|s|] == s;
  }

  lemma PutKeeps(v: State, w: State, m: Mail, padding: seq<byte>, lost: bool)
    requires InFlight(v) && Announced(v) && BoxesRight(v) && Put(v, w, m, padding, lost)
    ensures InFlight(w) && Announced(w) && BoxesRight(w)
  {
    hide Sendable, Wire, Carries;
    PutFlight(v, w, m, padding, lost);
    hide InFlight;
    forall b | 0 <= b < |w.boxes| ensures BoxRight(w, b) {
      assert BoxRight(v, b);
      PutBox(v, w, m, padding, lost, b);
    }
  }

  lemma OneLater(s: seq<nat>, n: nat)
    requires Increasing(s) && forall k :: 0 <= k < |s| ==> s[k] < n
    ensures Increasing(s + [n])
  {
  }

  lemma PutFlight(v: State, w: State, m: Mail, padding: seq<byte>, lost: bool)
    requires InFlight(v) && Put(v, w, m, padding, lost)
    ensures InFlight(w)
  {
    hide Carries, Wire, Sendable, Increasing;
    WireRoundTrip(m, padding);
    if !lost {
      OneLater(v.flight, |v.sent|);
    }
    forall k | 0 <= k < |w.wire| ensures OnWire(w.wire[k], w.sent[w.flight[InHand(w) + InBox(w) + k]]) {
      if k < |v.wire| {
        assert OnWire(v.wire[k], v.sent[v.flight[InHand(v) + InBox(v) + k]]);
      }
    }
  }

  lemma PutBox(v: State, w: State, m: Mail, padding: seq<byte>, lost: bool, b: nat)
    requires Put(v, w, m, padding, lost) && b < |v.boxes| == |v.taken| == |v.arrived| && BoxRight(v, b)
    ensures BoxRight(w, b)
  {
    hide Sendable, Wire;
  }

  /** A step that concerns senders only. */
  lemma SameFlight(v: State, w: State)
    requires InFlight(v) && Announced(v) && w == v.(senders := w.senders)
    ensures InFlight(w) && Announced(w)
  {
    hide OnWire, Carries, Sendable;
  }

  lemma SenderStepsKeeps(v: State, w: State, h: int)
    requires Inv(v) && SenderSteps(v, w, h)
    ensures Inv(w)
  {
    hide Senders.Inv, Senders.QuietStep, InFlight, Announced, BoxRight, Share;
    SameFlight(v, w);
    forall b | 0 <= b < |w.boxes| ensures BoxRight(w, b) {
      assert BoxRight(v, b);
      SameBox(v, w, b);
    }
    assert SenderRight(v, h);
    QuietKeeps(v.senders[h], w.senders[h]);
    forall x | x in w.senders ensures SenderRight(w, x) {
      assert SenderRight(v, x);
    }
  }

  lemma QuietKeeps(s: Senders.State, s': Senders.State)
    requires Senders.Inv(s) && Senders.QuietStep(s, s')
    ensures Senders.Inv(s') && s'.host == s.host && s'.device.log == s.device.log
  {
    hide Senders.Inv;
    Senders.StepKeeps(s, s');
  }

  /** A step that leaves the senders alone. */
  lemma SameSenders(v: State, w: State)
    requires SendersRight(v) && w.senders == v.senders && w.sent == v.sent && w.host == v.host
    ensures SendersRight(w)
  {
    hide Senders.Inv, Share;
    forall h | h in w.senders ensures SenderRight(w, h) {
      assert SenderRight(v, h);
    }
  }

  lemma CallBackKeeps(v: State, w: State)
    requires Inv(v) && CallBack(v, w)
    ensures Inv(w)
  {
    hide Carries, Wire, DecodeHeader, Payload, Sendable, BoxRight, SendersRight;
    SameSenders(v, w);
    var i := InHand(v);
    var m := v.sent[v.flight[i]];
    assert OnWire(v.wire[0], m);
    ReadsWire(v.wire[0], m, v.inbox);
    forall k | 0 <= k < |w.wire| ensures OnWire(w.wire[k], w.sent[w.flight[InHand(w) + InBox(w) + k]]) {
      assert OnWire(v.wire[k + 1], v.sent[v.flight[i + k + 1]]);
    }
    forall b | 0 <= b < |w.boxes| ensures BoxRight(w, b) {
      assert BoxRight(v, b);
      SameBox(v, w, b);
    }
  }

  lemma ReadsWire(bytes: seq<byte>, m: Mail, inbox: seq<byte>)
    requires OnWire(bytes, m) && Sendable(m) && |inbox| == MAX_PACKET_SIZE
    ensures DecodeHeader(bytes) == m.packet && 0 < m.packet.length <= MAX_PACKET_SIZE
    ensures Carries(m.packet, Splice(inbox, 0, bytes[HEADER_SIZE..HEADER_SIZE + m.packet.length]), m)
  {
    hide DecodeHeader, Wire, Payload;
    var padding :| bytes == Wire(m, padding);
    WireRoundTrip(m, padding);
    PayloadRoundTrip(m);
  }

  lemma SameBox(v: State, w: State, b: nat)
    requires b < |v.boxes| == |v.taken| == |v.arrived| && BoxRight(v, b)
    requires w.boxes == v.boxes && w.taken == v.taken && w.arrived == v.arrived && w.sent == v.sent && w.flight == v.flight
    ensures BoxRight(w, b)
  {
  }

  lemma WakesKeeps(v: State, w: State)
    requires Inv(v) && WorkerWakes(v, w)
    ensures Inv(w)
  {
    hide Carries, OnWire, Sendable, BoxRight, SendersRight;
    SameSenders(v, w);
    forall b | 0 <= b < |w.boxes| ensures BoxRight(w, b) {
      assert BoxRight(v, b);
      SameBox(v, w, b);
    }
  }

  lemma ReceivesKeeps(v: State, w: State)
    requires Inv(v) && WorkerReceives(v, w)
    ensures Inv(w)
  {
    hide OnWire, Sendable, BoxRight, Payload, SendersRight;
    SameSenders(v, w);
    assert v.inHdr.length > 0;
    assert Carries(v.inHdr, v.inbox, v.sent[v.flight[0]]);
    forall k | 0 <= k < |w.wire| ensures OnWire(w.wire[k], w.sent[w.flight[InHand(w) + InBox(w) + k]]) {
      assert OnWire(v.wire[k], v.sent[v.flight[InHand(v) + InBox(v) + k]]);
    }
    forall b | 0 <= b < |w.boxes| ensures BoxRight(w, b) {
      assert BoxRight(v, b);
      SameBox(v, w, b);
    }
  }

  /** The worker puts into the box exactly the message that was sent. */
  lemma DeliversMessage(v: State, w: State) returns (m: Mail)
    requires Inv(v) && WorkerDelivers(v, w)
    ensures v.worker.Holding? && |v.flight| > 0 && v.flight[0] < |v.sent| && m == v.sent[v.flight[0]]
    ensures 0 <= m.mail.to < |v.boxes| == |v.arrived|
    ensures w == v.(worker := Waiting, boxes := v.boxes[m.mail.to := v.boxes[m.mail.to] + [m]], flight := v.flight[1..],
                    arrived := v.arrived[m.mail.to := v.arrived[m.mail.to] + [v.flight[0]]])
  {
    hide OnWire, DecodeHeader, Payload, BoxRight, SendersRight;
    m := v.sent[v.flight[0]];
    assert Carries(v.worker.header, v.worker.buffer, m);
    PayloadRoundTrip(m);
    PrefixDecodes(v.worker.buffer, m);
  }

  lemma PrefixDecodes(buffer: seq<byte>, m: Mail)
    requires Sendable(m) && m.packet.length <= |buffer| && buffer[..m.packet.length] == Payload(m)
    ensures |buffer| >= HEADER_SIZE && DecodeHeader(buffer) == m.mail
    ensures buffer[HEADER_SIZE..HEADER_SIZE + m.mail.length] == m.data
  {
    hide EncodeHeader, IntBytes;
    PayloadRoundTrip(m);
    var p := Payload(m);
    assert buffer[..4] == p[..4] && buffer[4..8] == p[4..8] && buffer[8..12] == p[8..12];
    assert buffer[HEADER_SIZE..HEADER_SIZE + m.mail.length] == p[HEADER_SIZE..HEADER_SIZE + m.mail.length];
  }

  lemma DeliversKeeps(v: State, w: State)
    requires Inv(v) && WorkerDelivers(v, w)
    ensures Inv(w)
  {
    hide OnWire, Sendable, Payload, WorkerDelivers, Carries, SendersRight;
    var m := DeliversMessage(v, w);
    SameSenders(v, w);
    forall k | 0 <= k < |w.wire| ensures OnWire(w.wire[k], w.sent[w.flight[InHand(w) + InBox(w) + k]]) {
      assert OnWire(v.wire[k], v.sent[v.flight[InHand(v) + InBox(v) + k]]);
    }
    forall b | 0 <= b < |w.boxes| ensures BoxRight(w, b) {
      assert BoxRight(v, b);
      BoxGets(v, w, m, b);
    }
  }

  lemma BoxGets(v: State, w: State, m: Mail, b: nat)
    requires b < |v.boxes| == |v.taken| == |v.arrived| && BoxRight(v, b) && Increasing(v.flight)
    requires |v.flight| > 0 && v.flight[0] < |v.sent| && m == v.sent[v.flight[0]] && 0 <= m.mail.to < |v.boxes|
    requires w == v.(worker := Waiting, boxes := v.boxes[m.mail.to := v.boxes[m.mail.to] + [m]], flight := v.flight[1..],
                     arrived := v.arrived[m.mail.to := v.arrived[m.mail.to] + [v.flight[0]]])
    ensures BoxRight(w, b)
  {
    if b == m.mail.to {
      assert w.taken[b] + w.boxes[b] == v.taken[b] + v.boxes[b] + [m];
    }
  }

  lemma ReceiveKeeps(v: State, w: State, box: nat)
    requires Inv(v) && Receive(v, w, box)
    ensures Inv(w)
  {
    hide OnWire, Sendable, Payload, Carries, SendersRight;
    SameSenders(v, w);
    forall b | 0 <= b < |w.boxes| ensures BoxRight(w, b) {
      assert BoxRight(v, b);
      if b == box {
        assert v.boxes[b] == [v.boxes[b][0]] + v.boxes[b][1..];
        assert w.taken[b] + w.boxes[b] == v.taken[b] + v.boxes[b];
      }
    }
  }

  lemma StepKeeps(v: State, w: State)
    requires Inv(v) && Step(v, w)
    ensures Inv(w)
  {
    hide Inv, Send, SenderSteps, CallBack, WorkerWakes, WorkerReceives, WorkerDelivers, Receive;
    if h, t, padding, lost :| Send(v, w, h, t, padding, lost) {
      SendKeeps(v, w, h, t, padding, lost);
    } else if h :| SenderSteps(v, w, h) {
      SenderStepsKeeps(v, w, h);
    } else if CallBack(v, w) {
      CallBackKeeps(v, w);
    } else if WorkerWakes(v, w) {
      WakesKeeps(v, w);
    } else if WorkerReceives(v, w) {
      ReceivesKeeps(v, w);
    } else if WorkerDelivers(v, w) {
      DeliversKeeps(v, w);
    } else {
      var box :| Receive(v, w, box);
      ReceiveKeeps(v, w, box);
    }
  }

  ghost predicate IsPostRun(run: seq<State>)
  {
    Runs.IsRun(run, v => Init(v), (v, w) => Step(v, w))
  }

  lemma EveryStateOfEveryRun(run: seq<State>, n: nat)
    requires IsPostRun(run) && n < |run|
    ensures Inv(run[n])
  {
    hide Init, Step, Inv;
    forall v | Init(v) ensures Inv(v) {
      InitInv(v);
    }
    forall v, w | Inv(v) && Step(v, w) ensures Inv(w) {
      StepKeeps(v, w);
    }
    Runs.InvariantHolds(run, v => Init(v), (v, w) => Step(v, w), v => Inv(v), n);
  }

  /** `places` shows `some` to be a subsequence of `all`. */
  ghost predicate Subsequence(some: seq<Mail>, all: seq<Mail>, places: seq<nat>)
  {
    && |places| == |some| && Increasing(places)
    && forall k :: 0 <= k < |places| ==> places[k] < |all| && some[k] == all[places[k]]
  }

  /** The messages of one sender in a subsequence are a subsequence of the messages of that sender. */
  lemma {:induction false} ShareSubsequence(some: seq<Mail>, all: seq<Mail>, places: seq<nat>, from: int, to: int,
                                            box: int) returns (within: seq<nat>)
    requires Subsequence(some, all, places)
    ensures Subsequence(Share(some, from, to, box), Share(all, from, to, box), within)
    decreases |all|
  {
    if some == [] {
      return [];
    }
    var n, k := |all| - 1, |some| - 1;
    assert places[k] < |all|;
    if places[k] == n {
      within := ShareSubsequence(some[..k], all[..n], places[..k], from, to, box);
      if all[n].packet.from == from && all[n].packet.to == to && all[n].mail.to == box {
        within := within + [|Share(all[..n], from, to, box)|];
      }
    } else {
      within := ShareSubsequence(some, all[..n], places, from, to, box);
    }
  }

  /** In every run, the messages taken from a box that came from one machine are, headers and data intact, an in-order
      subsequence of those its threads handed to the network for that box; the worker never received an empty packet;
      and the inbox was filled only when it was empty and announced exactly once. */
  lemma DeliveredInOrder(run: seq<State>, n: nat, box: nat, sender: int) returns (places: seq<nat>)
    requires IsPostRun(run) && n < |run| && box < |run[n].taken| && sender in run[n].senders
    ensures run[n].asserts && Announced(run[n])
    ensures Subsequence(Share(run[n].taken[box], sender, run[n].host, box),
                        Share(run[n].senders[sender].device.log, sender, run[n].host, box), places)
  {
    hide Init, Step, Share, Senders.Inv;
    EveryStateOfEveryRun(run, n);
    var v := run[n];
    assert BoxRight(v, box) && SenderRight(v, sender);
    var k := |v.taken[box]|;
    assert (v.taken[box] + v.boxes[box])[..k] == v.taken[box];
    places := ShareSubsequence(v.taken[box], v.sent, v.arrived[box][..k], sender, v.host, box);
  }
}
