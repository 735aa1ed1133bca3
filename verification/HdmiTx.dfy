/**
 The HDMI transmitter's connection and content-protection state: what one poll of the chip does
 to it, on values, and what every run of polls keeps.

 The chip is seen through what the driver reads: the interrupt status, its readings while the
 cable bounces, the images of the system control register during the DDC handshake, the outcome
 of the EDID read, and the three reads of the HDCP query register. A register is a record of the
 fields that the disjoint masks of sil9024.h pick out.
 */
module HdmiTx {

  const DDC_ATTEMPTS: nat := 50

  /** Register 0x1A: dynamic link integrity, TMDS power down, AV mute, DDC bus request and grant, HDMI output mode. */
  datatype Control = Control(dynamic: bool, down: bool, mute: bool, request: bool, grant: bool, hdmi: bool)

  const ALL_ONES := Control(true, true, true, true, true, true)

  /** Interrupt status register 0x3D. */
  datatype Status = Status(hotPlugEvent: bool, rxSenseEvent: bool, hotPlugState: bool, rxSenseState: bool,
                           audioError: bool, securityChange: bool, hdcpChange: bool)

  datatype Event = HotPlug | RxSense | AudioError | SecurityChange | HdcpChange

  datatype Link = Normal | Lost | Renegotiate | Suspended

  /** The two protection bits of the query register, which are also what g_hdcp records. */
  datatype Level = Level(extended: bool, localSecure: bool)

  const NO_PROTECTION := Level(false, false)
  const LOCAL := Level(false, true)
  const EXTENDED := Level(true, true)

  /** g_sys. */
  datatype LinkState = LinkState(cable: bool, rx: bool, tmds: bool, d0: bool)

  /** The fields of g_edid the state machine uses. */
  datatype EdidState = EdidState(valid: bool, sink: bool)

  /** g_hdcp. */
  datatype Hdcp = Hdcp(supports: bool, aksvValid: bool, started: bool, bypass: bool, auth: bool, level: Level)

  /** Registers the driver writes: 0x1A, the protection bit of 0x2A and the interrupt enables. `held` says the host
      owns the DDC bus; register 0x1A then reads as all ones. */
  datatype Registers = Registers(sys: Control, held: bool, protecting: bool, enabled: set<Event>)

  datatype Tx = Tx(link: LinkState, edid: EdidState, hdcp: Hdcp, regs: Registers)

  function ReadSys(t: Tx): Control {
    if t.regs.held then ALL_ONES else t.regs.sys
  }

  /** On a held bus the handlers write back what they read: every bit but the one they clear. */
  lemma HeldWrites(t: Tx)
    requires t.regs.held
    ensures EnableTmds(t).regs.sys == Control(true, false, true, true, true, true)
    ensures DisableTmds(t).regs.sys == HdcpOff(t).regs.sys == Control(true, true, true, true, true, true)
  {
  }

  // ---------------------------------------------------------------- handlers

  function EnableTmds(t: Tx): Tx {
    t.(regs := t.regs.(sys := ReadSys(t).(down := false)), link := t.link.(tmds := true))
  }

  function DisableTmds(t: Tx): Tx {
    t.(regs := t.regs.(sys := ReadSys(t).(down := true, mute := true)), link := t.link.(tmds := false))
  }

  function HdcpOff(t: Tx): Tx {
    t.(regs := t.regs.(sys := ReadSys(t).(mute := true), protecting := false),
       hdcp := t.hdcp.(started := false, level := NO_PROTECTION))
  }

  function HdcpOn(t: Tx): Tx {
    if !t.hdcp.bypass then t.(regs := t.regs.(protecting := true), hdcp := t.hdcp.(started := true))
    else t.(hdcp := t.hdcp.(started := false))
  }

  function RestartHdcp(t: Tx): Tx {
    EnableTmds(HdcpOff(DisableTmds(t)))
  }

  function LinkChange(t: Tx, link: Link): Tx {
    match link
    case Normal => t
    case Lost => RestartHdcp(t)
    case Renegotiate => HdcpOn(HdcpOff(t))
    case Suspended => HdcpOn(t)
  }

  function LevelChange(t: Tx, level: Level): Tx {
    if level == t.hdcp.level then t
    else
      var t1 := t.(hdcp := t.hdcp.(level := level));
      if level == LOCAL then t1.(regs := t1.regs.(sys := ReadSys(t1).(mute := false)))
      else if level == EXTENDED then t1
      else RestartHdcp(t1)
  }

  /** The three reads of the HDCP query register during one check: is protection available, how is the link, what is
      the protection level. */
  datatype Queries = Queries(available: bool, link: Link, level: Level)

  function StartIfIdle(t: Tx, available: bool): Tx {
    if t.hdcp.level == NO_PROTECTION && !t.hdcp.started && available then HdcpOn(t) else t
  }

  function CheckStatus(t: Tx, s: Status, q: Queries): Tx {
    if t.hdcp.supports && t.hdcp.aksvValid then
      var t1 := StartIfIdle(t, q.available);
      var t2 := if s.securityChange then LinkChange(t1, q.link) else t1;
      if s.hdcpChange then LevelChange(t2, q.level) else t2
    else t
  }

  /** The writes of the video path to the output mode bit: HDMI first, then DVI for a DVI sink. */
  function SetFormatMode(t: Tx): Tx {
    var t1 := t.(regs := t.regs.(sys := ReadSys(t).(hdmi := true)));
    if t.edid.sink then t1 else t1.(regs := t1.regs.(sys := ReadSys(t1).(hdmi := false)))
  }

  function Protected(t: Tx): bool {
    t.hdcp.supports && t.hdcp.auth
  }

  function Init(t: Tx): Tx {
    var t1 := SetFormatMode(t).(link := SetFormatMode(t).link.(d0 := true));
    if Protected(t1) then
      if t1.hdcp.aksvValid then
        t1.(regs := t1.regs.(sys := ReadSys(t1).(dynamic := true, down := false, mute := true),
                             enabled := t1.regs.enabled + {HotPlug, RxSense, AudioError, SecurityChange, HdcpChange}),
            link := t1.link.(tmds := true))
      else t1
    else
      t1.(regs := t1.regs.(sys := ReadSys(t1).(dynamic := true, down := false, mute := false),
                           enabled := t1.regs.enabled + {HotPlug, RxSense, AudioError}),
          link := t1.link.(tmds := true))
  }

  function PoweredDown(t: Tx): Tx {
    var t1 := t.(link := t.link.(rx := false));
    var t2 := DisableTmds(if t1.hdcp.started then HdcpOff(t1) else t1);
    t2.(regs := t2.regs.(sys := ReadSys(t2).(hdmi := false)))
  }

  /** OnDownstreamRxPoweredUp, with HotPlugService's masking of all interrupts. */
  function PoweredUp(t: Tx): Tx {
    Init(t.(link := t.link.(rx := true), regs := t.regs.(enabled := {})))
  }

  function Disconnected(t: Tx): Tx {
    PoweredDown(t.(link := t.link.(cable := false), edid := t.edid.(valid := false)))
  }

  // ---------------------------------------------------------------- reading the EDID

  datatype EdidRead = Parsed(sink: bool) | NoExtensions | ParseFailed | ExtensionFailed

  /** Images of the DDC bits while the bus is requested and while it is released, and what the EDID said. */
  datatype Ddc = Ddc(request: seq<Control>, release: seq<Control>, edid: EdidRead)

  ghost predicate Granted(d: Ddc) {
    exists i: nat :: i < |d.request| && i < DDC_ATTEMPTS && d.request[i].grant
  }

  ghost predicate Released(d: Ddc) {
    exists i: nat :: i < |d.release| && i < DDC_ATTEMPTS && !d.release[i].grant && !d.release[i].request
  }

  function SinkOf(e: EdidRead): bool {
    match e
    case Parsed(sink) => sink
    case NoExtensions => false
    case _ => true
  }

  /** DoEdidRead. A refused request leaves the request bit set; a failed release leaves the bus held. */
  ghost function ReadEdid(t: Tx, d: Ddc): Tx {
    if t.edid.valid then t
    else if !Granted(d) then t.(regs := t.regs.(sys := ReadSys(t).(request := true)), edid := t.edid.(sink := true))
    else
      t.(regs := t.regs.(sys := ReadSys(t).(request := false, grant := false), held := !Released(d)),
         edid := t.edid.(sink := SinkOf(d.edid), valid := Released(d)))
  }

  ghost function Connected(t: Tx, d: Ddc): Tx {
    var t1 := ReadEdid(t.(link := t.link.(cable := true)), d);
    t1.(regs := t1.regs.(sys := ReadSys(t1).(hdmi := t1.edid.sink)))
  }

  // ---------------------------------------------------------------- one poll

  datatype Input = Input(status: Status, bounce: seq<Status>, ddc: Ddc, queries: Queries)

  /** The readings of a bouncing cable: hot-plug events up to the last reading. */
  ghost predicate Bounces(readings: seq<Status>) {
    && readings != []
    && !readings[|readings| - 1].hotPlugEvent
    && forall i: nat | i < |readings| - 1 :: readings[i].hotPlugEvent
  }

  ghost predicate Sound(i: Input) {
    && (i.status.hotPlugEvent ==> Bounces(i.bounce))
    && |i.ddc.request| == DDC_ATTEMPTS && |i.ddc.release| == DDC_ATTEMPTS
  }

  /** The status the rest of the poll works with. */
  function Settled(i: Input): Status
    requires i.status.hotPlugEvent ==> i.bounce != []
  {
    if i.status.hotPlugEvent then i.bounce[|i.bounce| - 1] else i.status
  }

  ghost function AfterHotPlug(t: Tx, i: Input): Tx
    requires i.status.hotPlugEvent ==> i.bounce != []
  {
    if !i.status.hotPlugEvent then t
    else
      var t1 := t.(regs := t.regs.(enabled := t.regs.enabled + {HotPlug}));
      if Settled(i).hotPlugState == t.link.cable then t1
      else if t.link.cable then Disconnected(t1)
      else Connected(t1, i.ddc)
  }

  function AfterRxSense(t: Tx, s: Status): Tx {
    if s.rxSenseState == t.link.rx || !t.link.cable then t
    else if t.link.rx then PoweredDown(t)
    else PoweredUp(t)
  }

  ghost function Poll(t: Tx, i: Input): Tx
    requires Sound(i)
  {
    if !t.link.d0 then t
    else
      var s := Settled(i);
      var t1 := AfterHotPlug(t, i);
      if t.link.cable && !t1.link.cable then t1
      else
        var t2 := AfterRxSense(t1, s);
        if t2.link.cable && t2.link.rx && t2.hdcp.auth then CheckStatus(t2, s, i.queries) else t2
  }

  // ---------------------------------------------------------------- start-up and runs

  /** What the start-up finds: whether the chip answers, its HDCP abilities, and what the registers hold by then. After
      a reset those are the reset values; without one they are what the driver last wrote. */
  datatype Chip = Chip(found: bool, supports: bool, aksvOk: bool, left: Registers)

  function TpiInit(t: Tx, c: Chip): Tx {
    var t1 := t.(link := t.link.(d0 := true, tmds := false, cable := false, rx := false),
                 edid := t.edid.(valid := false), regs := c.left);
    if !c.found then t1
    else
      t1.(hdcp := t1.hdcp.(bypass := false, auth := true, supports := c.supports,
                           aksvValid := c.supports && c.aksvOk, started := false, level := NO_PROTECTION),
          regs := t1.regs.(enabled := t1.regs.enabled + {HotPlug}))
  }

  /** siHdmiTx_VideoSet: a fresh start that takes the cable and the receiver as present. */
  function VideoSet(t: Tx, c: Chip): Tx {
    Init(TpiInit(t, c).(link := TpiInit(t, c).link.(cable := true, rx := true)))
  }

  /** Leaving power state D2 by siHdmiTx_PowerStateD0fromD2 restarts HDCP, which powers TMDS up unconditionally. */
  function WakeFromD2(t: Tx): Tx {
    RestartHdcp(t).(link := RestartHdcp(t).link.(d0 := true))
  }

  datatype Action = PollOnce(input: Input) | SetVideo(chip: Chip) | Sleep | Wake | WakeFromSleep

  ghost predicate Possible(a: Action) {
    a.PollOnce? ==> Sound(a.input)
  }

  ghost predicate AllPossible(actions: seq<Action>) {
    forall a | a in actions :: Possible(a)
  }

  ghost function Step(t: Tx, a: Action): Tx
    requires Possible(a)
  {
    match a
    case PollOnce(i) => Poll(t, i)
    case SetVideo(c) => VideoSet(t, c)
    case Sleep => t.(link := t.link.(d0 := false))
    case Wake => t.(link := t.link.(d0 := true))
    case WakeFromSleep => WakeFromD2(t)
  }

  ghost function Run(t: Tx, actions: seq<Action>): Tx
    requires AllPossible(actions)
    decreases |actions|
  {
    if actions == [] then t
    else
      assert actions[0] in actions && forall a | a in actions[1..] :: a in actions;
      Run(Step(t, actions[0]), actions[1..])
  }

  // ---------------------------------------------------------------- what every run keeps

  /** TMDS runs exactly while a receiver is powered and content protection, if any, has valid keys. */
  predicate Powered(t: Tx) {
    && (t.link.rx ==> t.link.cable)
    && (t.edid.valid ==> t.link.cable)
    && t.link.tmds == (t.link.rx && (Protected(t) ==> t.hdcp.aksvValid))
  }

  /** The power-down bit of the control register agrees with that, as far as the register can be written. */
  predicate Tracks(t: Tx) {
    && (!t.regs.sys.down ==> t.link.tmds)
    && (t.link.tmds && !t.regs.held ==> !t.regs.sys.down)
  }

  /** HDCP runs only where it can, and a protected picture is shown only on a link recorded as locally secure. */
  predicate Guarded(t: Tx) {
    && (t.hdcp.started ==> t.hdcp.supports && t.hdcp.aksvValid && t.hdcp.auth && t.link.rx)
    && !t.hdcp.bypass
    && (Protected(t) && !t.regs.sys.mute ==> t.hdcp.aksvValid && t.hdcp.level.localSecure)
    && (!t.link.rx ==> t.regs.sys.mute)
  }

  /** An unprotected picture is shown, in the sink's mode, and the events that end it are enabled. */
  predicate Presented(t: Tx) {
    && (t.link.rx && !t.regs.held ==> t.regs.sys.hdmi == t.edid.sink)
    && (t.link.rx && !t.regs.held && !Protected(t) ==> !t.regs.sys.mute)
    && (t.link.tmds ==> {HotPlug, RxSense} <= t.regs.enabled)
  }

  predicate Inv(t: Tx) {
    Powered(t) && Guarded(t) && Presented(t)
  }

  /** The chip runs HDCP only when the driver has it as started. */
  predicate Recorded(t: Tx) {
    t.regs.protecting ==> t.hdcp.started
  }

  /** From a state that has the invariants to one that has them, with what the registers agreed on kept. */
  predicate Keeps(t: Tx, n: Tx) {
    Inv(n) && (Tracks(t) ==> Tracks(n)) && (Recorded(t) ==> Recorded(n))
  }

  /** Starting a chip that answers establishes the invariants exactly when it is found muted; the power-down bit is
      right exactly when TMDS is found powered down, and the record of HDCP exactly when protection is found off. */
  lemma InitialInvIff(t: Tx, c: Chip)
    requires c.found
    ensures Inv(TpiInit(t, c)) <==> c.left.sys.mute
    ensures Tracks(TpiInit(t, c)) <==> c.left.sys.down
    ensures Recorded(TpiInit(t, c)) <==> !c.left.protecting
  {
  }

  lemma RestartEffect(t: Tx)
    ensures RestartHdcp(t) ==
            t.(regs := t.regs.(sys := ReadSys(t).(down := false, mute := true), protecting := false),
               link := t.link.(tmds := true),
               hdcp := t.hdcp.(started := false, level := NO_PROTECTION))
  {
  }

  lemma OffEffect(t: Tx)
    ensures DisableTmds(HdcpOff(t)) ==
            t.(regs := t.regs.(sys := ReadSys(t).(down := true, mute := true), protecting := false),
               link := t.link.(tmds := false),
               hdcp := t.hdcp.(started := false, level := NO_PROTECTION))
  {
  }

  lemma PoweredDownEffect(t: Tx)
    ensures PoweredDown(t) ==
            t.(link := t.link.(rx := false, tmds := false),
               hdcp := t.hdcp.(started := false, level := if t.hdcp.started then NO_PROTECTION else t.hdcp.level),
               regs := t.regs.(sys := ReadSys(t).(down := true, mute := true, hdmi := false),
                               protecting := if t.hdcp.started then false else t.regs.protecting))
  {
    hide HdcpOff;
    var t1 := t.(link := t.link.(rx := false));
    if t.hdcp.started {
      hide DisableTmds;
      OffEffect(t1);
    }
  }

  /** Nothing but power-down and muting differs. */
  predicate SameButPicture(a: Control, b: Control) {
    b == a.(down := b.down, mute := b.mute)
  }

  /** What may change while HDCP status is checked. */
  predicate SameLink(t: Tx, n: Tx) {
    && n.link.cable == t.link.cable && n.link.rx == t.link.rx && n.hdcp.supports == t.hdcp.supports &&
        n.hdcp.aksvValid == t.hdcp.aksvValid
    && n.hdcp.auth == t.hdcp.auth && n.regs.held == t.regs.held && n.link.d0 == t.link.d0
    && n.edid == t.edid && (!t.regs.held ==> SameButPicture(t.regs.sys, n.regs.sys))
  }

  predicate Checkable(t: Tx) {
    Inv(t) && t.link.cable && t.link.rx && t.hdcp.auth && t.hdcp.supports && t.hdcp.aksvValid
  }

  lemma StartIfIdleInv(t: Tx, available: bool)
    requires Checkable(t)
    ensures var n := StartIfIdle(t, available); Checkable(n) && SameLink(t, n) && Keeps(t, n)
  {
  }

  lemma RestartInv(t: Tx, level: Level)
    requires Checkable(t)
    ensures var n := RestartHdcp(t.(hdcp := t.hdcp.(level := level))); Checkable(n) && SameLink(t, n) && Keeps(t, n)
  {
    RestartEffect(t.(hdcp := t.hdcp.(level := level)));
    hide RestartHdcp;
  }

  lemma LinkChangeInv(t: Tx, link: Link)
    requires Checkable(t)
    ensures var n := LinkChange(t, link); Checkable(n) && SameLink(t, n) && Keeps(t, n)
  {
    hide RestartHdcp;
    RestartInv(t, t.hdcp.level);
    assert t.(hdcp := t.hdcp.(level := t.hdcp.level)) == t;
  }

  lemma LevelChangeInv(t: Tx, level: Level)
    requires Checkable(t)
    ensures var n := LevelChange(t, level); Checkable(n) && SameLink(t, n) && Keeps(t, n)
  {
    hide RestartHdcp;
    RestartInv(t, level);
  }

  lemma CheckStatusInv(t: Tx, s: Status, q: Queries)
    requires Inv(t) && t.link.cable && t.link.rx && t.hdcp.auth
    ensures Keeps(t, CheckStatus(t, s, q)) && SameLink(t, CheckStatus(t, s, q))
  {
    if t.hdcp.supports && t.hdcp.aksvValid {
      var t1 := StartIfIdle(t, q.available);
      StartIfIdleInv(t, q.available);
      LinkChangeInv(t1, q.link);
      var t2 := if s.securityChange then LinkChange(t1, q.link) else t1;
      hide StartIfIdle, LinkChange, LevelChange, Inv, Tracks, Recorded;
      LevelChangeInv(t2, q.level);
    }
  }

  lemma PoweredDownInv(t: Tx)
    requires Inv(t)
    ensures Keeps(t, PoweredDown(t))
  {
    PoweredDownEffect(t);
    hide PoweredDown;
  }

  lemma DisconnectedInv(t: Tx)
    requires Inv(t)
    ensures Keeps(t, Disconnected(t))
  {
    PoweredDownEffect(t.(link := t.link.(cable := false), edid := t.edid.(valid := false)));
    hide PoweredDown;
  }

  lemma ConnectedInv(t: Tx, d: Ddc)
    requires Inv(t) && !t.link.cable
    ensures Keeps(t, Connected(t, d))
  {
    hide Granted, Released, SinkOf;
    var t1 := ReadEdid(t.(link := t.link.(cable := true)), d);
    assert t1 == t.(link := t.link.(cable := true),
                    regs := t.regs.(sys := t1.regs.sys, held := t1.regs.held),
                    edid := t.edid.(sink := t1.edid.sink, valid := t1.edid.valid));
    assert t1.regs.sys.mute && (Tracks(t) ==> t1.regs.sys.down);
    hide ReadEdid;
  }

  lemma PoweredUpInv(t: Tx)
    requires Inv(t) && t.link.cable && !t.link.rx
    ensures Keeps(t, PoweredUp(t))
  {
  }

  lemma AfterHotPlugInv(t: Tx, i: Input)
    requires Inv(t) && Sound(i)
    ensures Keeps(t, AfterHotPlug(t, i))
  {
    if i.status.hotPlugEvent {
      var t1 := t.(regs := t.regs.(enabled := t.regs.enabled + {HotPlug}));
      assert Keeps(t, t1);
      hide Inv, Tracks, Recorded, Connected, Disconnected;
      DisconnectedInv(t1);
      if !t.link.cable {
        ConnectedInv(t1, i.ddc);
      }
    }
  }

  lemma AfterRxSenseInv(t: Tx, s: Status)
    requires Inv(t)
    ensures Keeps(t, AfterRxSense(t, s))
  {
    hide Inv, Tracks, Recorded, PoweredUp, PoweredDown;
    PoweredDownInv(t);
    if t.link.cable && !t.link.rx {
      PoweredUpInv(t);
    }
  }

  lemma PollInv(t: Tx, i: Input)
    requires Inv(t) && Sound(i)
    ensures Keeps(t, Poll(t, i))
  {
    hide Inv, Tracks, Recorded, AfterHotPlug, AfterRxSense, CheckStatus;
    AfterHotPlugInv(t, i);
    var t1 := AfterHotPlug(t, i);
    AfterRxSenseInv(t1, Settled(i));
    var t2 := AfterRxSense(t1, Settled(i));
    if t2.link.cable && t2.link.rx && t2.hdcp.auth {
      CheckStatusInv(t2, Settled(i), i.queries);
    }
  }

  // ---------------------------------------------------------------- mode settings and wake-ups

  /** HDCP will be required and the keys bad, so that siHdmiTx_Init leaves register 0x1A alone. */
  predicate BadKeys(t: Tx, c: Chip) {
    if c.found then c.supports && !c.aksvOk else Protected(t) && !t.hdcp.aksvValid
  }

  // What a mode setting needs of the registers it starts from: with bad keys that the picture is muted already or reads
  // so, or that TMDS is powered down already or reads so; and that protection is on only if it stays recorded.

  predicate SetsSafely(t: Tx, c: Chip) {
    BadKeys(t, c) ==> c.left.held || c.left.sys.mute
  }

  predicate SetsDown(t: Tx, c: Chip) {
    BadKeys(t, c) ==> c.left.held || c.left.sys.down
  }

  predicate SetsRecorded(t: Tx, c: Chip) {
    c.left.protecting ==> !c.found && t.hdcp.started
  }

  /** Setting a video mode keeps the invariants, leaves the power-down bit right, and the record of HDCP, each exactly
      when its condition is met. */
  lemma VideoSetInvIff(t: Tx, c: Chip)
    requires Inv(t)
    ensures Inv(VideoSet(t, c)) <==> SetsSafely(t, c)
    ensures Tracks(VideoSet(t, c)) <==> SetsDown(t, c)
    ensures Recorded(VideoSet(t, c)) <==> SetsRecorded(t, c)
  {
  }

  /** The mode setting as the code is: the reset pin is not toggled, so the registers keep what they hold, and the
      start-up reads find the HDCP abilities they found before. */
  predicate Kept(t: Tx, c: Chip) {
    && c.found && c.left == t.regs && t.hdcp.auth
    && c.supports == t.hdcp.supports && (c.supports && c.aksvOk) == t.hdcp.aksvValid
  }

  /** Without a reset a mode setting keeps the invariants and the power-down bit in any case, and ends with a protected
      picture muted; the record of HDCP is right exactly when the chip is not running it. */
  lemma KeptRegistersIff(t: Tx, c: Chip)
    requires Inv(t) && Kept(t, c)
    ensures Inv(VideoSet(t, c)) && (Tracks(t) ==> Tracks(VideoSet(t, c)))
    ensures Protected(VideoSet(t, c)) ==> VideoSet(t, c).regs.sys.mute
    ensures Recorded(VideoSet(t, c)) <==> !t.regs.protecting
  {
    VideoSetInvIff(t, c);
  }

  /** Leaving D2 keeps the invariants exactly when TMDS was up already and the muting it brings is allowed: the link is
      protected, or the control register cannot be read. */
  lemma WakeFromD2Iff(t: Tx)
    requires Inv(t)
    ensures Inv(WakeFromD2(t)) <==> t.link.tmds && (t.regs.held || Protected(t))
    ensures Tracks(WakeFromD2(t)) && Recorded(WakeFromD2(t)) && WakeFromD2(t).link.d0
  {
    RestartEffect(t);
    hide RestartHdcp;
  }

  // ---------------------------------------------------------------- every run

  /** What an action needs for the invariants to survive it: nothing for polls and for going to sleep. */
  predicate Guard(t: Tx, a: Action) {
    match a
    case SetVideo(c) => SetsSafely(t, c)
    case WakeFromSleep => t.link.tmds && (t.regs.held || Protected(t))
    case _ => true
  }

  predicate DownGuard(t: Tx, a: Action) {
    a.SetVideo? ==> SetsDown(t, a.chip)
  }

  predicate RecordGuard(t: Tx, a: Action) {
    a.SetVideo? ==> SetsRecorded(t, a.chip)
  }

  lemma StepInvIff(t: Tx, a: Action)
    requires Inv(t) && Possible(a)
    ensures Inv(Step(t, a)) <==> Guard(t, a)
    ensures Tracks(t) ==> (Tracks(Step(t, a)) <==> DownGuard(t, a))
    ensures Recorded(t) ==> (Recorded(Step(t, a)) <==> RecordGuard(t, a))
  {
    hide Inv, Tracks, Recorded, VideoSet, Poll, WakeFromD2, SetsSafely, SetsDown, SetsRecorded;
    match a
    case PollOnce(i) => PollInv(t, i);
    case SetVideo(chip) => VideoSetInvIff(t, chip);
    case WakeFromSleep => WakeFromD2Iff(t);
    case _ => PowerStateInv(t);
  }

  /** `p` holds after every action of the run. */
  ghost predicate Throughout(p: Tx -> bool, t: Tx, actions: seq<Action>)
    requires AllPossible(actions)
    decreases |actions|
  {
    actions != [] ==>
      assert actions[0] in actions && forall a | a in actions[1..] :: a in actions;
      p(Step(t, actions[0])) && Throughout(p, Step(t, actions[0]), actions[1..])
  }

  /** Every action of the run meets the guard where it comes. */
  ghost predicate AllMeet(guard: (Tx, Action) -> bool, t: Tx, actions: seq<Action>)
    requires AllPossible(actions)
    decreases |actions|
  {
    actions != [] ==>
      assert actions[0] in actions && forall a | a in actions[1..] :: a in actions;
      guard(t, actions[0]) && AllMeet(guard, Step(t, actions[0]), actions[1..])
  }

  lemma Rest(actions: seq<Action>)
    requires AllPossible(actions) && actions != []
    ensures Possible(actions[0]) && AllPossible(actions[1..])
  {
    assert actions[0] in actions && forall a | a in actions[1..] :: a in actions;
  }

  /** The invariants hold throughout a run of polls with arbitrary readings, mode settings, sleeps and wake-ups exactly
      when every mode setting and every wake-up meets its guard. */
  lemma {:induction false} RunInvIff(t: Tx, actions: seq<Action>)
    requires Inv(t) && AllPossible(actions)
    ensures Throughout(Inv, t, actions) <==> AllMeet(Guard, t, actions)
    ensures AllMeet(Guard, t, actions) ==> Inv(Run(t, actions))
    decreases |actions|
  {
    hide Inv, Step, Guard, Possible, AllPossible;
    if actions != [] {
      Rest(actions);
      StepInvIff(t, actions[0]);
      if Guard(t, actions[0]) {
        RunInvIff(Step(t, actions[0]), actions[1..]);
      }
    }
  }

  /** In such a run the power-down bit stays right exactly when every mode setting leaves it so. */
  lemma {:induction false} RunTracksIff(t: Tx, actions: seq<Action>)
    requires Inv(t) && Tracks(t) && AllPossible(actions) && AllMeet(Guard, t, actions)
    ensures Throughout(Tracks, t, actions) <==> AllMeet(DownGuard, t, actions)
    decreases |actions|
  {
    hide Inv, Tracks, Recorded, Step, Guard, DownGuard, Possible, AllPossible;
    if actions != [] {
      Rest(actions);
      StepInvIff(t, actions[0]);
      if Tracks(Step(t, actions[0])) {
        RunTracksIff(Step(t, actions[0]), actions[1..]);
      }
    }
  }

  /** And the record of HDCP stays right exactly when no mode setting loses it. */
  lemma {:induction false} RunRecordedIff(t: Tx, actions: seq<Action>)
    requires Inv(t) && Recorded(t) && AllPossible(actions) && AllMeet(Guard, t, actions)
    ensures Throughout(Recorded, t, actions) <==> AllMeet(RecordGuard, t, actions)
    decreases |actions|
  {
    hide Inv, Tracks, Recorded, Step, Guard, RecordGuard, Possible, AllPossible;
    if actions != [] {
      Rest(actions);
      StepInvIff(t, actions[0]);
      if Recorded(Step(t, actions[0])) {
        RunRecordedIff(Step(t, actions[0]), actions[1..]);
      }
    }
  }

  /** The safety theorem: from a start that finds the chip muted a run keeps the invariants throughout exactly when its
      mode settings and wake-ups meet their guards; and what the registers agreed on at the start, the power-down bit
      and the record of HDCP, such a run keeps exactly when its mode settings do. */
  lemma RunKeepsInv(t: Tx, c: Chip, actions: seq<Action>)
    requires c.found && c.left.sys.mute && AllPossible(actions)
    ensures var t0 := TpiInit(t, c);
            && (Throughout(Inv, t0, actions) <==> AllMeet(Guard, t0, actions))
            && (AllMeet(Guard, t0, actions) ==> Inv(Run(t0, actions)))
            && (AllMeet(Guard, t0, actions) && c.left.sys.down ==>
                  (Throughout(Tracks, t0, actions) <==> AllMeet(DownGuard, t0, actions)))
            && (AllMeet(Guard, t0, actions) && !c.left.protecting ==>
                  (Throughout(Recorded, t0, actions) <==> AllMeet(RecordGuard, t0, actions)))
  {
    InitialInvIff(t, c);
    hide Inv, Tracks, Recorded, TpiInit, AllPossible, Throughout, AllMeet, Run;
    var t0 := TpiInit(t, c);
    RunInvIff(t0, actions);
    if AllMeet(Guard, t0, actions) && c.left.sys.down {
      RunTracksIff(t0, actions);
    }
    if AllMeet(Guard, t0, actions) && !c.left.protecting {
      RunRecordedIff(t0, actions);
    }
  }

  /** Mode settings as the code makes them. Nothing in the driver leaves D2 by siHdmiTx_PowerStateD0fromD2. */
  predicate AsWritten(t: Tx, a: Action) {
    (a.SetVideo? ==> Kept(t, a.chip)) && !a.WakeFromSleep?
  }

  lemma {:induction false} AsWrittenKeeps(t: Tx, actions: seq<Action>)
    requires Inv(t) && AllPossible(actions) && AllMeet(AsWritten, t, actions)
    ensures Throughout(Inv, t, actions) && Inv(Run(t, actions))
    ensures Tracks(t) ==> Throughout(Tracks, t, actions)
    decreases |actions|
  {
    hide Inv, Tracks, Recorded, Step, Kept, Possible, AllPossible;
    if actions != [] {
      Rest(actions);
      AsWrittenStep(t, actions[0]);
      AsWrittenKeeps(Step(t, actions[0]), actions[1..]);
    }
  }

  lemma AsWrittenStep(t: Tx, a: Action)
    requires Inv(t) && Possible(a) && AsWritten(t, a)
    ensures Inv(Step(t, a)) && (Tracks(t) ==> Tracks(Step(t, a)))
  {
    hide Inv, Tracks, Recorded, VideoSet, Poll, WakeFromD2, Kept, SetsSafely, SetsDown, SetsRecorded;
    StepInvIff(t, a);
    if a.SetVideo? {
      KeptRegistersIff(t, a.chip);
    }
  }

  /** The safety theorem for the code as it is: from a start that finds the chip muted, whatever else its registers
      hold, every run of polls, sleeps, wake-ups and mode settings that reset nothing keeps the invariants throughout,
      also while the chip runs HDCP that the driver no longer has as started. */
  lemma RunAsWritten(t: Tx, c: Chip, actions: seq<Action>)
    requires c.found && c.left.sys.mute && AllPossible(actions) && AllMeet(AsWritten, TpiInit(t, c), actions)
    ensures Throughout(Inv, TpiInit(t, c), actions) && Inv(Run(TpiInit(t, c), actions))
    ensures c.left.sys.down ==> Throughout(Tracks, TpiInit(t, c), actions)
  {
    InitialInvIff(t, c);
    hide Inv, Tracks, TpiInit, Throughout, AllMeet, Run;
    AsWrittenKeeps(TpiInit(t, c), actions);
  }

  lemma PowerStateInv(t: Tx)
    requires Inv(t)
    ensures Keeps(t, t.(link := t.link.(d0 := false))) && Keeps(t, t.(link := t.link.(d0 := true)))
  {
  }

  /** Plugged in, with protection offered: the poll starts HDCP. */
  function PlugIn(ddc: Ddc): Input {
    var s := Status(false, false, true, true, false, false, false);
    Input(s.(hotPlugEvent := true), [s], ddc, Queries(true, Normal, NO_PROTECTION))
  }

  /** A run that loses HDCP: the chip is started muted, the cable goes in and a protected link comes up; the mode is set
      without a reset. The chip still runs HDCP while the driver has it as not started. */
  lemma ModeSettingForgetsHdcp(t: Tx, c: Chip, ddc: Ddc)
    requires c.found && c.left.sys.mute && c.supports && c.aksvOk
    requires |ddc.request| == DDC_ATTEMPTS && |ddc.release| == DDC_ATTEMPTS
    ensures Possible(PollOnce(PlugIn(ddc)))
    ensures var t1 := Step(TpiInit(t, c), PollOnce(PlugIn(ddc)));
            var n := VideoSet(t1, c.(left := t1.regs));
            && t1.hdcp.started && t1.regs.protecting && Kept(t1, c.(left := t1.regs))
            && !n.hdcp.started && n.regs.protecting && !Recorded(n) && Inv(n)
  {
    var t0, i := TpiInit(t, c), PlugIn(ddc);
    assert Bounces(i.bounce);
    InitialInvIff(t, c);
    PollInv(t0, i);
    PlugInStarts(t0, i.ddc);
    var t1 := Poll(t0, i);
    KeptRegistersIff(t1, c.(left := t1.regs));
    hide Poll, Inv;
  }

  lemma PlugInStarts(t: Tx, ddc: Ddc)
    requires Inv(t) && Sound(PlugIn(ddc)) && t.link.d0 && !t.link.cable && Protected(t) && t.hdcp.aksvValid
    requires !t.hdcp.started && t.hdcp.level == NO_PROTECTION
    ensures var n := Poll(t, PlugIn(ddc)); n.hdcp == t.hdcp.(started := true) && n.regs.protecting
  {
    hide Granted, Released, SinkOf;
    var t1 := t.(regs := t.regs.(enabled := t.regs.enabled + {HotPlug}));
    assert Connected(t1, ddc).hdcp == t.hdcp;
    assert PoweredUp(Connected(t1, ddc)).hdcp == t.hdcp;
    hide Connected, PoweredUp;
  }

  // ---------------------------------------------------------------- what one poll achieves

  lemma StartEffect(t: Tx, available: bool)
    ensures var n := StartIfIdle(t, available);
            SameLink(t, n) && n.hdcp.level == t.hdcp.level && n.regs.sys == t.regs.sys && n.link.tmds == t.link.tmds
  {
  }

  lemma OffOnEffect(t: Tx)
    ensures HdcpOff(t) == t.(regs := t.regs.(sys := ReadSys(t).(mute := true), protecting := false),
                             hdcp := t.hdcp.(started := false, level := NO_PROTECTION))
    ensures HdcpOn(t) == t.(regs := t.regs.(protecting := t.regs.protecting || !t.hdcp.bypass),
                            hdcp := t.hdcp.(started := !t.hdcp.bypass))
  {
  }

  lemma HandlersSame(t: Tx)
    ensures SameLink(t, t) && SameLink(t, RestartHdcp(t)) && SameLink(t, HdcpOff(t)) && SameLink(t, HdcpOn(t))
  {
    RestartSame(t);
    OffOnEffect(t);
    hide RestartHdcp, HdcpOff, HdcpOn;
  }

  lemma RestartSame(t: Tx)
    ensures SameLink(t, RestartHdcp(t))
  {
    RestartEffect(t);
    hide RestartHdcp;
  }

  lemma SameLinkTransitive(t: Tx, m: Tx, n: Tx)
    requires SameLink(t, m) && SameLink(m, n)
    ensures SameLink(t, n)
  {
  }

  lemma LinkSame(t: Tx, link: Link)
    ensures SameLink(t, LinkChange(t, link))
  {
    hide RestartHdcp, HdcpOff, HdcpOn, SameLink;
    HandlersSame(t);
    HandlersSame(HdcpOff(t));
    SameLinkTransitive(t, HdcpOff(t), HdcpOn(HdcpOff(t)));
  }

  lemma LinkEffect(t: Tx, link: Link)
    ensures var n := LinkChange(t, link);
            && n.hdcp.level == (if link == Lost || link == Renegotiate then NO_PROTECTION else t.hdcp.level)
            && (t.regs.sys.mute ==> n.regs.sys.mute)
            && (link == Lost ==> n.regs.sys.mute && n.link.tmds && !n.hdcp.started && !n.regs.protecting)
  {
    RestartEffect(t);
    OffOnEffect(t);
    OffOnEffect(HdcpOff(t));
    hide RestartHdcp, HdcpOff, HdcpOn;
  }

  lemma LevelSame(t: Tx, level: Level)
    ensures SameLink(t, LevelChange(t, level))
  {
    var t1 := t.(hdcp := t.hdcp.(level := level));
    assert SameLink(t, t1) && SameLink(t, t1.(regs := t1.regs.(sys := ReadSys(t1).(mute := false))));
    hide RestartHdcp, ReadSys, SameLink;
    HandlersSame(t);
    HandlersSame(t1);
    SameLinkTransitive(t, t1, RestartHdcp(t1));
  }

  lemma LevelEffect(t: Tx, level: Level)
    requires t.regs.sys.mute
    ensures LevelChange(t, level).regs.sys.mute == !(level == LOCAL && t.hdcp.level != LOCAL)
  {
    RestartEffect(t.(hdcp := t.hdcp.(level := level)));
    hide RestartHdcp;
  }

  lemma CheckStatusSameLink(t: Tx, s: Status, q: Queries)
    ensures SameLink(t, CheckStatus(t, s, q))
  {
    hide StartIfIdle, LinkChange, LevelChange;
    var t1 := StartIfIdle(t, q.available);
    var t2 := if s.securityChange then LinkChange(t1, q.link) else t1;
    StartEffect(t, q.available);
    LinkSame(t1, q.link);
    LevelSame(t2, q.level);
  }

  /** After a poll the recorded state is what the pins said: the cable follows the settled hot-plug level when there
      was an event, and the receiver follows its sense level while the cable is in. */
  lemma PollTracksPins(t: Tx, i: Input)
    requires Inv(t) && Sound(i) && t.link.d0
    ensures var n := Poll(t, i);
            && n.link.cable == (if i.status.hotPlugEvent then Settled(i).hotPlugState else t.link.cable)
            && n.link.rx == (n.link.cable && Settled(i).rxSenseState)
  {
    var s, t1 := Settled(i), AfterHotPlug(t, i);
    HotPlugTracks(t, i);
    AfterHotPlugInv(t, i);
    hide AfterHotPlug;
    if !(t.link.cable && !t1.link.cable) {
      var t2 := AfterRxSense(t1, s);
      RxSenseTracks(t1, s);
      CheckStatusSameLink(t2, s, i.queries);
      hide AfterRxSense, CheckStatus;
    }
  }

  lemma HotPlugTracks(t: Tx, i: Input)
    requires Sound(i)
    ensures AfterHotPlug(t, i).link.cable == if i.status.hotPlugEvent then Settled(i).hotPlugState else t.link.cable
  {
    var t1 := t.(regs := t.regs.(enabled := t.regs.enabled + {HotPlug}));
    ConnectedCable(t1, i.ddc);
    PoweredDownEffect(t1.(link := t1.link.(cable := false), edid := t1.edid.(valid := false)));
    hide PoweredDown, Connected;
  }

  lemma ConnectedCable(t: Tx, d: Ddc)
    ensures Connected(t, d).link.cable
  {
    hide Granted, Released, SinkOf;
    if t.edid.valid {
      assert Connected(t, d).link.cable;
    } else if Granted(d) {
      assert Connected(t, d).link.cable;
    } else {
      assert Connected(t, d).link.cable;
    }
  }

  lemma RxSenseTracks(t: Tx, s: Status)
    requires t.link.rx ==> t.link.cable
    ensures var n := AfterRxSense(t, s);
            n.link.cable == t.link.cable && n.link.rx == (t.link.cable && s.rxSenseState)
  {
    PoweredDownEffect(t);
    hide PoweredDown;
  }

  /** What plugging in records of the EDID: it is valid exactly when the bus was granted and released within fifty
      tries; the sink is the one the extension names, DVI without an extension, and HDMI after a failed parse or a
      refused bus. */
  ghost predicate SinkRead(n: EdidState, d: Ddc)
    requires |d.request| == |d.release| == 50
  {
    var granted := exists k: nat :: k < 50 && d.request[k].grant;
    var released := exists k: nat :: k < 50 && !d.release[k].grant && !d.release[k].request;
    && (n.valid <==> granted && released)
    && (granted && d.edid == Parsed(true) ==> n.sink)
    && (granted && d.edid == Parsed(false) ==> !n.sink)
    && (granted && d.edid == NoExtensions ==> !n.sink)
    && (!granted || d.edid == ParseFailed || d.edid == ExtensionFailed ==> n.sink)
  }

  /** How it leaves the bus: with the host exactly when it was granted and not released, or not granted and with the
      host before; and else with the request bit clear after a grant, and set, against the code's comment, after a
      refusal. */
  ghost predicate BusLeft(t: Registers, n: Registers, d: Ddc)
    requires |d.request| == |d.release| == 50
  {
    var granted := exists k: nat :: k < 50 && d.request[k].grant;
    var released := exists k: nat :: k < 50 && !d.release[k].grant && !d.release[k].request;
    && n.held == (if granted then !released else t.held)
    && (!n.held ==> n.sys.request == !granted && n.sys.grant == (!granted && t.sys.grant))
  }

  /** A poll that settles from unplugged to plugged does that, and sets the output to the mode of that sink. */
  lemma PlugInReads(t: Tx, i: Input)
    requires Inv(t) && Sound(i) && t.link.d0 && !t.link.cable
    requires i.status.hotPlugEvent && Settled(i).hotPlugState
    ensures var n := Poll(t, i);
            && SinkRead(n.edid, i.ddc) && BusLeft(t.regs, n.regs, i.ddc)
            && (!n.regs.held ==> n.regs.sys.hdmi == n.edid.sink)
  {
    var s, t1 := Settled(i), AfterHotPlug(t, i);
    PlugInEffect(t.(regs := t.regs.(enabled := t.regs.enabled + {HotPlug})), i.ddc);
    var t2 := AfterRxSense(t1, s);
    PowerUpKeepsEdid(t1);
    CheckStatusSameLink(t2, s, i.queries);
    hide CheckStatus, PoweredUp, Connected, SinkRead, Inv;
  }

  lemma PlugInEffect(t: Tx, d: Ddc)
    requires !t.edid.valid && |d.request| == |d.release| == 50
    ensures var n := Connected(t, d);
            && SinkRead(n.edid, d) && n.regs.sys.hdmi == n.edid.sink && n.link == t.link.(cable := true)
            && BusLeft(t.regs, n.regs, d)
  {
  }

  lemma PowerUpKeepsEdid(t: Tx)
    ensures var n := PoweredUp(t);
            && n.edid == t.edid && n.regs.held == t.regs.held && n.link.cable == t.link.cable
            && (!t.regs.held ==> n.regs.sys.hdmi == t.edid.sink && n.regs.sys.request == t.regs.sys.request &&
                                 n.regs.sys.grant == t.regs.sys.grant)
  {
  }

  /** Where the protection level stands when a level change is examined. */
  function LevelThen(t: Tx, s: Status, q: Queries): Level {
    if s.securityChange && (q.link == Lost || q.link == Renegotiate) then NO_PROTECTION else t.hdcp.level
  }

  /** A muted picture on a protected link is unmuted by a status check exactly when the chip reports a change to
      local protection from another recorded level. In particular, a link that goes straight to extended
      protection stays muted. */
  lemma UnmutedIff(t: Tx, s: Status, q: Queries)
    requires Checkable(t) && t.regs.sys.mute
    ensures !CheckStatus(t, s, q).regs.sys.mute <==>
            s.hdcpChange && q.level == Level(false, true) && LevelThen(t, s, q) != Level(false, true)
  {
    hide StartIfIdle, LinkChange, LevelChange;
    var t1 := StartIfIdle(t, q.available);
    var t2 := if s.securityChange then LinkChange(t1, q.link) else t1;
    StartEffect(t, q.available);
    LinkEffect(t1, q.link);
    LevelEffect(t2, q.level);
  }

  /** With no event pending, HDCP starts, in the driver and, if it does not run there already, in the chip, exactly when
      the chip offers it and no protection is recorded yet; nothing else changes. */
  lemma IdleStartsIff(t: Tx, s: Status, q: Queries)
    requires Checkable(t) && !t.hdcp.started && !s.securityChange && !s.hdcpChange
    ensures var n := CheckStatus(t, s, q);
            && n.hdcp.started == (q.available && t.hdcp.level == NO_PROTECTION)
            && n.regs.protecting == (t.regs.protecting || n.hdcp.started)
            && n == t.(hdcp := t.hdcp.(started := n.hdcp.started), regs := t.regs.(protecting := n.regs.protecting))
  {
  }

  /** The driver and the chip agree on whether HDCP runs. */
  predicate Matched(t: Tx) {
    t.hdcp.started == t.regs.protecting
  }

  /** A status check keeps that agreement, whatever the chip reports. */
  lemma CheckStatusMatched(t: Tx, s: Status, q: Queries)
    requires Checkable(t) && Matched(t)
    ensures Matched(CheckStatus(t, s, q))
  {
    hide StartIfIdle, LinkChange, LevelChange;
    var t1 := StartIfIdle(t, q.available);
    var t2 := if s.securityChange then LinkChange(t1, q.link) else t1;
    StartIfIdleInv(t, q.available);
    LinkChangeInv(t1, q.link);
    HandlersMatched(t, t1, t2, q);
  }

  lemma HandlersMatched(t: Tx, t1: Tx, t2: Tx, q: Queries)
    requires !t.hdcp.bypass && !t1.hdcp.bypass && !t2.hdcp.bypass
    ensures Matched(t) ==> Matched(StartIfIdle(t, q.available))
    ensures Matched(t1) ==> Matched(LinkChange(t1, q.link))
    ensures Matched(t2) ==> Matched(LevelChange(t2, q.level))
  {
    RestartEffect(t1);
    RestartEffect(t2.(hdcp := t2.hdcp.(level := q.level)));
    OffOnEffect(t);
    OffOnEffect(t1);
    OffOnEffect(HdcpOff(t1));
    hide RestartHdcp, HdcpOff, HdcpOn;
  }

  /** A lost link is answered with a muted picture, no recorded protection and authentication off, TMDS staying up for
      the retry; only a report of local protection in the same check may unmute again. */
  lemma LostLinkMutes(t: Tx, s: Status, q: Queries)
    requires Checkable(t) && s.securityChange && q.link == Lost
    requires !(s.hdcpChange && (q.level == Level(false, true) || q.level == Level(true, true)))
    ensures var n := CheckStatus(t, s, q);
            && n.regs.sys.mute && n.hdcp.level == Level(false, false) && !n.hdcp.started && !n.regs.protecting
            && n.link.tmds
  {
  }

  /** The other answers to a changed link: a suspended one has HDCP turned on again and nothing else touched; one to be
      renegotiated is muted, its recorded protection dropped, and HDCP turned off and on again. */
  lemma LinkAnswers(t: Tx, s: Status, q: Queries)
    requires Checkable(t) && s.securityChange && !s.hdcpChange
    ensures var n := CheckStatus(t, s, q);
            && (q.link == Suspended ==>
                  n == t.(hdcp := t.hdcp.(started := true), regs := t.regs.(protecting := true)))
            && (q.link == Renegotiate ==>
                  n == t.(hdcp := t.hdcp.(started := true, level := Level(false, false)),
                          regs := t.regs.(sys := ReadSys(t).(mute := true), protecting := true)))
            && (q.link == Normal ==> n.regs.sys == t.regs.sys && n.link == t.link && n.hdcp.level == t.hdcp.level)
  {
  }

  /** A report of extended protection from another level is recorded, and picture and HDCP are left alone. */
  lemma ExtendedRecorded(t: Tx, s: Status, q: Queries)
    requires Checkable(t) && !s.securityChange && s.hdcpChange && q.level == Level(true, true)
    requires t.hdcp.started
    ensures CheckStatus(t, s, q) == t.(hdcp := t.hdcp.(level := Level(true, true)))
  {
  }

  /** Unplugging mutes, powers down TMDS, forgets the EDID and records HDCP as stopped, whatever went on before; the
      chip goes on running it exactly if it ran unrecorded. */
  lemma UnplugSilences(t: Tx, i: Input)
    requires Inv(t) && Sound(i) && t.link.d0 && t.link.cable
    requires i.status.hotPlugEvent && !Settled(i).hotPlugState
    ensures var n := Poll(t, i);
            && !n.link.cable && !n.link.rx && !n.link.tmds && !n.edid.valid && !n.hdcp.started
            && n.regs.sys.mute && n.regs.sys.down && (n.regs.protecting <==> !Recorded(t))
  {
  }

  /** After the receiver powers up, the hot-plug interrupt is enabled again unless HDCP is required and the keys are
      bad: then every interrupt stays masked. */
  lemma PowerUpListensIff(t: Tx)
    ensures HotPlug in PoweredUp(t).regs.enabled <==> !(Protected(t) && !t.hdcp.aksvValid)
    ensures Protected(t) && !t.hdcp.aksvValid ==> PoweredUp(t).regs.enabled == {}
  {
    InitEvents(t.(link := t.link.(rx := true), regs := t.regs.(enabled := {})));
    hide Init;
  }

  /** siHdmiTx_Init records D0. With HDCP required it powers TMDS up muted if the keys are good and leaves power and
      picture alone if not; without, it shows the picture. */
  lemma InitStarts(t: Tx)
    requires !t.regs.held
    ensures var n := Init(t); var s := n.regs.sys;
            && n.link.d0 && s.hdmi == t.edid.sink
            && (Protected(t) && t.hdcp.aksvValid ==> s.dynamic && !s.down && s.mute && n.link.tmds)
            && (!Protected(t) ==> s.dynamic && !s.down && !s.mute && n.link.tmds)
            && (Protected(t) && !t.hdcp.aksvValid ==>
                  && s == t.regs.sys.(hdmi := t.edid.sink)
                  && n == t.(link := t.link.(d0 := true), regs := t.regs.(sys := s)))
  {
  }

  lemma InitEvents(t: Tx)
    ensures Init(t).regs.enabled ==
            t.regs.enabled +
            if Protected(t) && !t.hdcp.aksvValid then {}
            else if Protected(t) then {HotPlug, RxSense, AudioError, SecurityChange, HdcpChange}
            else {HotPlug, RxSense, AudioError}
  {
    assert SetFormatMode(t) == t.(regs := t.regs.(sys := SetFormatMode(t).regs.sys));
    hide SetFormatMode;
  }
}
