/** Bidirectional Forwarding Detection (RFC 5880): one session, and two of them over a network that
    loses, duplicates and reorders packets. */
module Bfd {
  const BFD_VERSION := 1
  const BFD_PACKET_LEN := 24

  datatype SessionState = AdminDown | Down | Init | Up {
    predicate AboveDown() {
      Init? || Up?
    }
  }

  datatype Diag =
    | DiagNone | DiagExpired | DiagEchoFailed | DiagRmtDown | DiagFwdReset
    | DiagPathDown | DiagCpathDown | DiagAdminDown | DiagRcpathDown

  datatype Msg = Msg(ttl: nat, version: nat, diag: Diag, state: SessionState, poll: bool, final: bool, auth: bool,
                     multipoint: bool, mult: nat, length: nat, myDisc: nat, yourDisc: nat)

  /** The part of a session that has to do with states, flags and discriminators. */
  datatype Session = Session(disc: nat, mult: nat, cpathDown: bool, state: SessionState, diag: Diag, poll: bool,
                             final: bool, rmtState: SessionState, rmtDiag: Diag, rmtDisc: nat)

  function NewSession(disc: nat, mult: nat): Session {
    Session(disc, mult, false, Down, DiagNone, false, false, Down, DiagNone, 0)
  }

  function SetState(s: Session, state: SessionState, diag: Diag): Session {
    var d := if s.cpathDown then DiagCpathDown else diag;
    if s.state == state && s.diag == d then s
    else
      var s' := s.(state := state, diag := d);
      if state.AboveDown() then s' else s'.(rmtState := Down, rmtDiag := DiagNone, rmtDisc := 0)
  }

  /** Starts a poll sequence if none is going on in either direction. */
  function Poll(s: Session): Session {
    if s.state.AboveDown() && !s.poll && !s.final then s.(poll := true) else s
  }

  function PutPacket(s: Session): (Msg, Session) {
    (Msg(255, BFD_VERSION, s.diag, s.state, s.poll, s.final, false, false, s.mult, BFD_PACKET_LEN, s.disc, s.rmtDisc),
     s.(final := false))
  }

  /** The checks of section 6.8.6 that a packet must pass. */
  predicate Accepts(s: Session, m: Msg) {
    && m.ttl == 255 && m.version == BFD_VERSION && !m.auth && m.length >= BFD_PACKET_LEN && m.mult != 0
    && !m.multipoint && m.myDisc != 0
    && (if m.yourDisc != 0 then m.yourDisc == s.disc else !m.state.AboveDown())
  }

  /** Takes over what the packet says of the other side, and its Poll and Final bits. */
  function Absorb(s: Session, m: Msg): Session {
    s.(rmtDisc := m.myDisc, rmtState := m.state, rmtDiag := m.diag,
       poll := s.poll && !m.final && !m.poll, final := s.final || m.poll)
  }

  /** Moves the session to the state that follows when the other side is in `theirs`. */
  function Advance(s: Session, theirs: SessionState): Session {
    if s.state.AdminDown? then s
    else if theirs.AdminDown? then
      if s.state.Down? then s else SetState(s, Down, DiagRmtDown)
    else
      match s.state
      case Down =>
        if theirs.Down? then SetState(s, Init, s.diag)
        else if theirs.Init? then SetState(s, Up, s.diag)
        else s
      case Init => if theirs.AboveDown() then SetState(s, Up, s.diag) else s
      case Up => if theirs.Down? then SetState(s, Down, DiagRmtDown) else s
      case AdminDown => s
  }

  function Process(s: Session, m: Msg): Session {
    if !Accepts(s, m) then s else Advance(Absorb(s, m), m.state)
  }

  /** The detection time has passed. */
  function Expire(s: Session): Session {
    if s.state.AboveDown() then SetState(s, Down, DiagExpired) else s
  }

  function SetCpathDown(s: Session, v: bool): Session {
    if s.cpathDown == v then s else Poll(SetState(s.(cpathDown := v), s.state, DiagNone))
  }

  // ----- what a session keeps

  /** A session whose peer has the discriminator `peer`; `heard` and `peerHeard` say whether the two
      have accepted a packet from each other. */
  predicate Good(s: Session, peer: nat, heard: bool, peerHeard: bool) {
    && s.disc != 0 && s.mult != 0 && !s.state.AdminDown? && !(s.poll && s.final)
    && (s.cpathDown ==> s.diag.DiagCpathDown?)
    && (s.rmtDisc == 0 || s.rmtDisc == peer)
    && (s.state.AboveDown() ==> s.rmtDisc == peer && heard)
    && (s.state.Up? ==> peerHeard)
  }

  /** What a session must know to enter a state. */
  predicate MayEnter(s: Session, state: SessionState, peer: nat, heard: bool, peerHeard: bool) {
    && !state.AdminDown?
    && (state.AboveDown() ==> s.rmtDisc == peer && heard)
    && (state.Up? ==> peerHeard)
  }

  /** The peer says that it is in Init or Up only after it has accepted a packet. */
  predicate FromPeer(m: Msg, peer: nat, peerHeard: bool) {
    m.myDisc == peer != 0 && (m.state.AboveDown() ==> peerHeard)
  }

  /** The states of the receiver after it gets a packet of the sender. */
  function NextState(mine: SessionState, theirs: SessionState): SessionState {
    match mine
    case AdminDown => AdminDown
    case Down => if theirs.Down? then Init else if theirs.Init? then Up else Down
    case Init => if theirs.AboveDown() then Up else if theirs.AdminDown? then Down else Init
    case Up => if theirs.AboveDown() then Up else Down
  }

  lemma ProcessState(s: Session, m: Msg)
    requires Accepts(s, m)
    ensures Process(s, m).state == NextState(s.state, m.state)
  {
  }

  lemma ProcessGood(s: Session, peer: nat, heard: bool, peerHeard: bool, m: Msg)
    requires Good(s, peer, heard, peerHeard)
    requires FromPeer(m, peer, peerHeard)
    ensures Good(Process(s, m), peer, heard || Accepts(s, m), peerHeard)
  {
  }

  lemma ProcessMeans(s: Session, m: Msg)
    ensures
      var s' := Process(s, m);
      && (!Accepts(s, m) ==> s' == s) && s'.cpathDown == s.cpathDown
      && (Accepts(s, m) ==>
           && s'.state == NextState(s.state, m.state)
           && s'.final == (s.final || m.poll) && s'.poll == (s.poll && !m.poll && !m.final)
           && (s'.state.AboveDown() ==> s'.rmtDisc == m.myDisc && s'.rmtState == m.state && s'.rmtDiag == m.diag)
           && (s'.state == s.state ==> s'.diag == s.diag)
           && (s'.state != s.state ==>
                s'.diag == if s.cpathDown then DiagCpathDown else if s'.state.Down? then DiagRmtDown else s.diag))
      && HearsPeer(s, m, s')
  {
    hide Good, FromPeer, NextState;
    if Accepts(s, m) { ProcessState(s, m); }
    forall peer, heard, peerHeard | Good(s, peer, heard, peerHeard) && FromPeer(m, peer, peerHeard)
      ensures Good(Process(s, m), peer, heard || Accepts(s, m), peerHeard)
    {
      ProcessGood(s, peer, heard, peerHeard, m);
    }
  }

  /** Towards whomever the first is good, the second is too. */
  ghost predicate StaysGood(s: Session, s': Session) {
    forall peer, heard, peerHeard :: Good(s, peer, heard, peerHeard) ==> Good(s', peer, heard, peerHeard)
  }

  /** A good session stays good exactly when it knows enough to enter the state. */
  ghost predicate Enters(s: Session, s': Session) {
    forall peer, heard, peerHeard :: Good(s, peer, heard, peerHeard) ==>
      (Good(s', peer, heard, peerHeard) <==> MayEnter(s, s'.state, peer, heard, peerHeard))
  }

  lemma EntersState(s: Session, state: SessionState, diag: Diag)
    ensures Enters(s, SetState(s, state, diag)) && SetState(s, state, diag).state == state
  {
    forall peer, heard, peerHeard | Good(s, peer, heard, peerHeard)
      ensures Good(SetState(s, state, diag), peer, heard, peerHeard) <==> MayEnter(s, state, peer, heard, peerHeard)
    {
    }
  }

  /** A good session that gets a packet of its peer stays good. */
  ghost predicate HearsPeer(s: Session, m: Msg, s': Session) {
    forall peer, heard, peerHeard :: Good(s, peer, heard, peerHeard) && FromPeer(m, peer, peerHeard) ==>
      Good(s', peer, heard || Accepts(s, m), peerHeard)
  }

  // ----- the session object

  class BfdSession {
    const disc: nat
    const mult: nat
    var cpathDown: bool
    var state: SessionState
    var diag: Diag
    var poll: bool
    var final: bool
    var rmtState: SessionState
    var rmtDiag: Diag
    var rmtDisc: nat

    ghost function View(): Session
      reads this
    {
      Session(disc, mult, cpathDown, state, diag, poll, final, rmtState, rmtDiag, rmtDisc)
    }

    constructor (disc: nat, mult: nat)
      ensures View() == NewSession(disc, mult)
      ensures disc != 0 && mult != 0 ==> forall peer, heard, peerHeard :: Good(View(), peer, heard, peerHeard)
    {
      this.disc, this.mult := disc, mult;
      cpathDown, poll, final := false, false, false;
      state, diag := Down, DiagNone;
      rmtState, rmtDiag, rmtDisc := Down, DiagNone, 0;
    }

    /** A good session stays good exactly when it knows enough to enter the state.  When it goes down it
        forgets its peer, so that it takes up with any other. */
    method ChangeState(newState: SessionState, newDiag: Diag)
      modifies this
      ensures View() == SetState(old(View()), newState, newDiag)
      ensures state == newState && diag == (if cpathDown then DiagCpathDown else newDiag) && Enters(old(View()), View())
      ensures newState.AboveDown() ==> View() == old(View()).(state := state, diag := diag)
      ensures old(state) != newState && !newState.AboveDown() ==>
        rmtDisc == 0 && rmtState.Down? && rmtDiag.DiagNone?
    {
      EntersState(View(), newState, newDiag);
      hide Enters;
      var d := newDiag;
      if cpathDown { d := DiagCpathDown; }
      if state != newState || diag != d {
        state, diag := newState, d;
        if state == AdminDown || state == Down {
          rmtState, rmtDiag, rmtDisc := Down, DiagNone, 0;
        }
      }
    }

    /** A session that is coming up or is up now polls or answers a poll; the poll never joins an answer. */
    method StartPoll()
      modifies this
      ensures View() == Poll(old(View()))
      ensures StaysGood(old(View()), View())
      ensures state.AboveDown() ==> poll || final
      ensures !state.AboveDown() || old(poll || final) ==> View() == old(View())
      ensures poll && final <==> old(poll && final)
    {
      if state.AboveDown() && !poll && !final {
        poll := true;
      }
    }

    /** Makes a packet to send.  That it is never Poll and Final at once is an assertion of the
        program, and so a precondition here; every good session meets it, and every session that it is
        good towards accepts the packet. */
    method Send() returns (m: Msg)
      requires !(poll && final)
      modifies this
      ensures (m, View()) == PutPacket(old(View())) && !(m.poll && m.final)
      ensures m.poll == old(poll) && m.final == old(final) && m.state == state && m.diag == diag
      ensures m.myDisc == disc && m.yourDisc == rmtDisc && m.mult == mult
      ensures !final && poll == old(poll) && View() == old(View()).(final := false)
      ensures StaysGood(old(View()), View())
      ensures forall peer, heard, peerHeard :: Good(old(View()), peer, heard, peerHeard) ==> FromPeer(m, disc, heard)
      ensures forall t: Session, heard, peerHeard :: t.disc != 0 && Good(old(View()), t.disc, heard, peerHeard) ==>
        Accepts(t, m)
    {
      m := Msg(255, BFD_VERSION, diag, state, poll, final, false, false, mult, BFD_PACKET_LEN, disc, rmtDisc);
      final := false;
    }

    /** What a packet must be like to be taken in: a wrong one of its parts is enough to turn it down. */
    method PassesChecks(m: Msg) returns (ok: bool)
      ensures ok == Accepts(View(), m)
      ensures ok ==> m.ttl == 255 && m.version == 1 && m.length >= 24 && m.mult > 0 && m.myDisc > 0
      ensures ok ==> !m.auth && !m.multipoint
      ensures ok ==> m.yourDisc == disc || (m.yourDisc == 0 && !m.state.AboveDown())
    {
      if m.ttl != 255 || m.version != BFD_VERSION || m.auth { return false; }
      if m.length < BFD_PACKET_LEN || m.mult == 0 || m.multipoint || m.myDisc == 0 { return false; }
      if m.yourDisc != 0 {
        ok := m.yourDisc == disc;
      } else {
        ok := !m.state.AboveDown();
      }
    }

    /** A packet that fails the checks changes nothing.  One that passes moves the session as section 6.2
        of RFC 5880 says, and a packet from its peer keeps it good. */
    method Receive(m: Msg)
      modifies this
      ensures View() == Process(old(View()), m)
      ensures !Accepts(old(View()), m) ==> View() == old(View())
      ensures Accepts(old(View()), m) ==> state == NextState(old(state), m.state) && cpathDown == old(cpathDown)
      ensures Accepts(old(View()), m) ==> final == (old(final) || m.poll) && poll == (old(poll) && !m.poll && !m.final)
      ensures Accepts(old(View()), m) && state.AboveDown() ==>
        rmtDisc == m.myDisc && rmtState == m.state && rmtDiag == m.diag
      ensures Accepts(old(View()), m) && state == old(state) ==> diag == old(diag)
      ensures Accepts(old(View()), m) && state != old(state) ==>
        diag == if cpathDown then DiagCpathDown else if state.Down? then DiagRmtDown else old(diag)
      ensures HearsPeer(old(View()), m, View())
    {
      ProcessMeans(View(), m);
      hide HearsPeer, NextState, Advance, Accepts;
      var ok := PassesChecks(m);
      if !ok { return; }
      rmtDisc, rmtState, rmtDiag := m.myDisc, m.state, m.diag;
      if m.final && poll {
        poll := false;
      }
      if m.poll {
        poll, final := false, true;
      }
      assert View() == Absorb(old(View()), m);
      FollowPeer(m.state);
    }

    /** The state machine of section 6.2, once the other side is known to be in `theirs`. */
    method FollowPeer(theirs: SessionState)
      modifies this
      ensures View() == Advance(old(View()), theirs) && state == NextState(old(state), theirs)
    {
      hide SetState, Enters;
      if state == AdminDown { return; }
      if theirs == AdminDown {
        if state != Down { ChangeState(Down, DiagRmtDown); }
      } else {
        match state
        case Down =>
          if theirs == Down { ChangeState(Init, diag); } else if theirs == Init { ChangeState(Up, diag); }
        case Init =>
          if theirs.AboveDown() { ChangeState(Up, diag); }
        case Up =>
          if theirs == Down { ChangeState(Down, DiagRmtDown); }
        case AdminDown =>
      }
    }

    /** After its detection time a session is not in Init or Up.  If it was, it has forgotten its peer, and
        what it sends next is accepted by every session. */
    method CheckExpired(expired: bool)
      modifies this
      ensures View() == if expired then Expire(old(View())) else old(View())
      ensures expired ==> !state.AboveDown()
      ensures expired && old(state).AboveDown() ==> diag == if cpathDown then DiagCpathDown else DiagExpired
      ensures StaysGood(old(View()), View())
      ensures expired && old(state).AboveDown() && disc != 0 && mult != 0 ==>
        forall t: Session :: Accepts(t, PutPacket(View()).0)
    {
      if state.AboveDown() && expired {
        ChangeState(Down, DiagExpired);
      }
    }

    /** The path being down is what the session reports from then on, and while it is coming up or is up a
        poll makes its peer answer; its state stays. */
    method ConfigureCpathDown(v: bool)
      modifies this
      ensures View() == SetCpathDown(old(View()), v)
      ensures cpathDown == v && state == old(state)
      ensures StaysGood(old(View()), View())
      ensures old(cpathDown) != v ==> PutPacket(View()).0.diag == if v then DiagCpathDown else DiagNone
      ensures old(cpathDown) != v && state.AboveDown() ==> poll || final
    {
      if cpathDown != v {
        cpathDown := v;
        ChangeState(state, DiagNone);
        StartPoll();
      }
    }
  }

  // ----- two sessions and the network between them

  /** Sessions 0 and 1, all the packets that each has ever sent, and whether each has ever accepted
      one from the other. */
  datatype System = System(sess: seq<Session>, sent: seq<set<Msg>>, heard: seq<bool>) {
    predicate Shaped() {
      |sess| == |sent| == |heard| == 2
    }
  }

  datatype Event =
    | SendPacket(i: nat)
    | Deliver(i: nat, m: Msg)
    | TimeOut(i: nat)
    | BeginPoll(i: nat)
    | Cpath(i: nat, v: bool)

  /** A packet that was sent can arrive at the other side at any later time, any number of times. */
  predicate Possible(y: System, e: Event) {
    y.Shaped() && e.i < 2 && (e.Deliver? ==> e.m in y.sent[1 - e.i])
  }

  function Apply(y: System, e: Event): System
    requires Possible(y, e)
  {
    var s := y.sess[e.i];
    match e
    case SendPacket(i) =>
      y.(sess := y.sess[i := PutPacket(s).1], sent := y.sent[i := y.sent[i] + {PutPacket(s).0}])
    case Deliver(i, m) => y.(sess := y.sess[i := Process(s, m)], heard := y.heard[i := y.heard[i] || Accepts(s, m)])
    case TimeOut(i) => y.(sess := y.sess[i := Expire(s)])
    case BeginPoll(i) => y.(sess := y.sess[i := Poll(s)])
    case Cpath(i, v) => y.(sess := y.sess[i := SetCpathDown(s, v)])
  }

  predicate Start(y: System, disc: seq<nat>, mult: seq<nat>) {
    && |disc| == |mult| == 2
    && y == System([NewSession(disc[0], mult[0]), NewSession(disc[1], mult[1])], [{}, {}], [false, false])
  }

  ghost predicate Reaches(y: System, events: seq<Event>, y': System)
    decreases |events|
  {
    if events == [] then y == y'
    else Possible(y, events[0]) && Reaches(Apply(y, events[0]), events[1..], y')
  }

  // ----- what every step keeps

  /** What session `i` sends, or would send now. */
  predicate PacketOk(y: System, i: nat, m: Msg)
    requires y.Shaped() && i < 2
  {
    && m.ttl == 255 && m.version == BFD_VERSION && !m.auth && !m.multipoint && m.length == BFD_PACKET_LEN
    && m.mult != 0 && m.myDisc == y.sess[i].disc != 0
    && (m.yourDisc == 0 || m.yourDisc == y.sess[1 - i].disc)
    && (m.state.AboveDown() ==> m.yourDisc == y.sess[1 - i].disc && y.heard[i])
    && !m.state.AdminDown? && !(m.poll && m.final)
  }

  predicate SessionOk(y: System, i: nat)
    requires y.Shaped() && i < 2
  {
    Good(y.sess[i], y.sess[1 - i].disc, y.heard[i], y.heard[1 - i])
  }

  ghost predicate Inv(y: System) {
    && y.Shaped()
    && (forall i :: 0 <= i < 2 ==> SessionOk(y, i))
    && (forall i, m :: 0 <= i < 2 && m in y.sent[i] ==> PacketOk(y, i, m))
  }

  lemma StartInv(y: System, disc: seq<nat>, mult: seq<nat>)
    requires Start(y, disc, mult) && disc[0] != 0 && disc[1] != 0 && mult[0] != 0 && mult[1] != 0
    ensures Inv(y)
  {
  }

  /** A packet from the other side passes the checks, whenever it arrives. */
  lemma PeerAccepts(y: System, i: nat, m: Msg)
    requires Inv(y) && i < 2 && m in y.sent[1 - i]
    ensures Accepts(y.sess[i], m)
  {
    assert PacketOk(y, 1 - i, m) && SessionOk(y, i);
  }

  lemma SessionKept(y: System, e: Event, i: nat)
    requires Inv(y) && Possible(y, e) && i < 2
    ensures SessionOk(Apply(y, e), i)
  {
    hide Process, Accepts, Expire, SetCpathDown, Poll, SetState;
    var s, peer := y.sess[i], y.sess[1 - i];
    assert SessionOk(y, i) && SessionOk(y, 1 - i);
    SameDisc(y.sess[e.i], e);
    if e.i == i {
      OwnStepGood(s, peer.disc, y.heard[i], y.heard[1 - i], e);
      if e.Deliver? {
        assert PacketOk(y, 1 - i, e.m);
        ProcessGood(s, peer.disc, y.heard[i], y.heard[1 - i], e.m);
      }
    }
  }

  lemma SameDisc(s: Session, e: Event)
    ensures Expire(s).disc == s.disc && Poll(s).disc == s.disc && PutPacket(s).1.disc == s.disc
    ensures e.Cpath? ==> SetCpathDown(s, e.v).disc == s.disc
    ensures e.Deliver? ==> Process(s, e.m).disc == s.disc
  {
  }

  lemma OwnStepGood(s: Session, peer: nat, heard: bool, peerHeard: bool, e: Event)
    requires Good(s, peer, heard, peerHeard)
    ensures Good(Expire(s), peer, heard, peerHeard) && Good(Poll(s), peer, heard, peerHeard)
    ensures Good(PutPacket(s).1, peer, heard, peerHeard)
    ensures e.Cpath? ==> Good(SetCpathDown(s, e.v), peer, heard, peerHeard)
  {
  }

  lemma PacketKept(y: System, e: Event, i: nat, m: Msg)
    requires Inv(y) && Possible(y, e) && i < 2 && m in Apply(y, e).sent[i]
    ensures PacketOk(Apply(y, e), i, m)
  {
    hide Process, Accepts, Expire, SetCpathDown, Poll, SetState;
    SameDisc(y.sess[e.i], e);
    assert SessionOk(y, i) && SessionOk(y, 1 - i);
    if m in y.sent[i] { assert PacketOk(y, i, m); }
  }

  lemma StepKeeps(y: System, e: Event)
    requires Inv(y) && Possible(y, e)
    ensures Inv(Apply(y, e))
  {
    hide SessionOk, PacketOk;
    forall i | 0 <= i < 2 ensures SessionOk(Apply(y, e), i) {
      SessionKept(y, e, i);
    }
    forall i, m | 0 <= i < 2 && m in Apply(y, e).sent[i] ensures PacketOk(Apply(y, e), i, m) {
      PacketKept(y, e, i, m);
    }
  }

  lemma {:induction false} RunKeeps(y: System, events: seq<Event>, y': System)
    requires Inv(y) && Reaches(y, events, y')
    ensures Inv(y')
    decreases |events|
  {
    hide Inv;
    if events != [] {
      StepKeeps(y, events[0]);
      RunKeeps(Apply(y, events[0]), events[1..], y');
    }
  }

  /** In every state that two sessions can reach: a session in Init or Up has the discriminator of its
      peer; a session is Up only after its peer accepted a packet from it; Poll and Final are never
      both set, in a session or in a packet; and no packet fails the checks of the other side. */
  lemma PairIsSafe(y: System, disc: seq<nat>, mult: seq<nat>, events: seq<Event>, y': System)
    requires Start(y, disc, mult) && disc[0] != 0 && disc[1] != 0 && mult[0] != 0 && mult[1] != 0
    requires Reaches(y, events, y')
    ensures Inv(y')
    ensures forall i :: 0 <= i < 2 && y'.sess[i].state.AboveDown() ==> y'.sess[i].rmtDisc == y'.sess[1 - i].disc
    ensures forall i :: 0 <= i < 2 && y'.sess[i].state.Up? ==> y'.heard[1 - i]
    ensures forall i :: 0 <= i < 2 ==> !(y'.sess[i].poll && y'.sess[i].final)
    ensures forall i, m :: 0 <= i < 2 && m in y'.sent[1 - i] ==> Accepts(y'.sess[i], m) && !(m.poll && m.final)
  {
    StartInv(y, disc, mult);
    RunKeeps(y, events, y');
    forall i | 0 <= i < 2
      ensures y'.sess[i].state.AboveDown() ==> y'.sess[i].rmtDisc == y'.sess[1 - i].disc
      ensures y'.sess[i].state.Up? ==> y'.heard[1 - i]
      ensures !(y'.sess[i].poll && y'.sess[i].final)
    {
      assert SessionOk(y', i);
    }
    forall i, m | 0 <= i < 2 && m in y'.sent[1 - i] ensures Accepts(y'.sess[i], m) && !(m.poll && m.final) {
      PeerAccepts(y', i, m);
      assert PacketOk(y', 1 - i, m);
    }
  }

  // ----- two session objects

  /** Two session objects, with what the network between them has carried. */
  class Link {
    const left: BfdSession
    const right: BfdSession
    ghost var sent: seq<set<Msg>>
    ghost var heard: seq<bool>

    ghost function State(): System
      reads this, left, right
    {
      System([left.View(), right.View()], sent, heard)
    }

    ghost predicate Valid()
      reads this, left, right
    {
      left != right && Inv(State())
    }

    constructor (left: BfdSession, right: BfdSession)
      requires left != right
      requires left.disc != 0 && left.mult != 0 && left.View() == NewSession(left.disc, left.mult)
      requires right.disc != 0 && right.mult != 0 && right.View() == NewSession(right.disc, right.mult)
      ensures this.left == left && this.right == right
      ensures Valid() && Start(State(), [left.disc, right.disc], [left.mult, right.mult])
    {
      this.left, this.right := left, right;
      sent, heard := [{}, {}], [false, false];
      new;
      StartInv(State(), [left.disc, right.disc], [left.mult, right.mult]);
    }

    /** Whatever happens next, the objects do what the pair of sessions does; no assertion of theirs fails,
        and every packet that arrives is accepted. */
    method Step(e: Event) returns (m: Msg)
      requires Valid() && Possible(State(), e)
      modifies this, left, right
      ensures Valid() && State() == Apply(old(State()), e)
      ensures e.SendPacket? ==> m in sent[e.i]
      ensures e.Deliver? ==> heard[e.i]
    {
      ghost var before := State();
      hide Inv, Process, Accepts, Good, StaysGood, HearsPeer, PutPacket, Poll, Expire, SetCpathDown, FromPeer;
      StepKeeps(before, e);
      var s := if e.i == 0 then left else right;
      SessionIsGood(before, e.i);
      m := Msg(0, 0, DiagNone, Down, false, false, false, false, 0, 0, 0, 0);
      match e {
        case SendPacket(i) =>
          m := s.Send();
          sent := sent[i := sent[i] + {m}];
        case Deliver(i, p) =>
          PeerAccepts(before, i, p);
          s.Receive(p);
          heard := heard[i := true];
        case TimeOut(i) =>
          s.CheckExpired(true);
        case BeginPoll(i) =>
          s.StartPoll();
        case Cpath(i, v) =>
          s.ConfigureCpathDown(v);
      }
      assert State().sess == Apply(before, e).sess;
    }
  }

  lemma SessionIsGood(y: System, i: nat)
    requires Inv(y) && i < 2
    ensures y.Shaped() && SessionOk(y, i) && !(y.sess[i].poll && y.sess[i].final)
  {
  }

  // ----- coming up

  /** Session `i` sends a packet and the other session gets it. */
  function Exchange(y: System, i: nat): (r: System)
    requires y.Shaped() && i < 2
    ensures r.Shaped()
  {
    var m := PutPacket(y.sess[i]).0;
    Apply(Apply(y, SendPacket(i)), Deliver(1 - i, m))
  }

  function RoundTrip(y: System): (r: System)
    requires y.Shaped()
    ensures r.Shaped()
  {
    Exchange(Exchange(y, 0), 1)
  }

  lemma ExchangeStates(y: System, i: nat)
    requires Inv(y) && i < 2
    ensures
      var y' := Exchange(y, i);
      && Inv(y') && y'.sess[i].state == y.sess[i].state
      && y'.sess[1 - i].state == NextState(y.sess[1 - i].state, y.sess[i].state)
  {
    hide Process, Accepts, NextState, Inv;
    Sized(y);
    var y1 := Apply(y, SendPacket(i));
    var m := PutPacket(y.sess[i]).0;
    StepKeeps(y, SendPacket(i));
    Sized(y1);
    PeerAccepts(y1, 1 - i, m);
    StepKeeps(y1, Deliver(1 - i, m));
    ProcessState(y1.sess[1 - i], m);
  }

  lemma Sized(y: System)
    requires Inv(y)
    ensures y.Shaped() && !y.sess[0].state.AdminDown? && !y.sess[1].state.AdminDown?
  {
    assert SessionOk(y, 0) && SessionOk(y, 1);
  }

  /** What a packet does to the polls of the two sides. */
  lemma ExchangePolls(y: System, i: nat)
    requires Inv(y) && i < 2
    ensures
      var y', s, t := Exchange(y, i), y.sess[i], y.sess[1 - i];
      && Inv(y')
      && y'.sess[i].poll == s.poll && !y'.sess[i].final
      && y'.sess[1 - i].poll == (t.poll && !s.poll && !s.final) && y'.sess[1 - i].final == (t.final || s.poll)
  {
    hide Process, Accepts, NextState, Inv;
    Sized(y);
    var y1 := Apply(y, SendPacket(i));
    var m := PutPacket(y.sess[i]).0;
    StepKeeps(y, SendPacket(i));
    Sized(y1);
    PeerAccepts(y1, 1 - i, m);
    StepKeeps(y1, Deliver(1 - i, m));
    ProcessMeans(y1.sess[1 - i], m);
  }

  /** Wherever two sessions have got to, a poll ends with the first round trip without loss or expiry, and
      the other side has answered it. */
  lemma PollEnds(y: System, i: nat)
    requires Inv(y) && i < 2 && y.sess[i].poll
    ensures
      var y' := Exchange(Exchange(y, i), 1 - i);
      Inv(y') && !y'.sess[i].poll && !y'.sess[1 - i].final
  {
    hide Exchange, Inv;
    Sized(y);
    ExchangePolls(y, i);
    ExchangePolls(Exchange(y, i), 1 - i);
  }

  /** Wherever two sessions have got to, three round trips without loss or expiry bring both up. */
  lemma ComesUp(y: System)
    requires Inv(y)
    ensures
      var y' := RoundTrip(RoundTrip(RoundTrip(y)));
      Inv(y') && y'.sess[0].state.Up? && y'.sess[1].state.Up?
  {
    hide Exchange, Inv;
    Sized(y);
    ExchangeStates(y, 0);
    ExchangeStates(Exchange(y, 0), 1);
    var y1 := RoundTrip(y);
    ExchangeStates(y1, 0);
    ExchangeStates(Exchange(y1, 0), 1);
    var y2 := RoundTrip(y1);
    ExchangeStates(y2, 0);
    ExchangeStates(Exchange(y2, 0), 1);
  }
}
