/**
 The transmitter's state machine as the driver runs it: g_sys, g_hdcp and the chip's registers
 updated in place. Each method is proved to do what its namesake in HdmiTx says.
 */
module HdmiTxDriver {
  import opened HdmiTx

  class Transmitter {
    var link: LinkState
    var edid: EdidState
    var hdcp: Hdcp
    var regs: Registers

    ghost function Abs(): Tx
      reads this
    {
      Tx(link, edid, hdcp, regs)
    }

    /** siHdmiTx_TPI_Init. */
    method TpiInit(chip: Chip) returns (found: bool)
      modifies this
      ensures found == chip.found && Abs() == HdmiTx.TpiInit(old(Abs()), chip)
      ensures found ==> (Inv(Abs()) <==> chip.left.sys.mute)
      ensures found ==> (Tracks(Abs()) <==> chip.left.sys.down) && (Recorded(Abs()) <==> !chip.left.protecting)
    {
      if chip.found {
        InitialInvIff(Abs(), chip);
      }
      hide Inv, Tracks, Recorded;
      link := link.(d0 := true);
      link := link.(tmds := false);
      link := link.(cable := false);
      link := link.(rx := false);
      edid := edid.(valid := false);
      regs := chip.left;
      found := chip.found;
      if found {
        hdcp := hdcp.(bypass := false);
        hdcp := hdcp.(auth := true);
        HdcpInit(chip);
        regs := regs.(enabled := regs.enabled + {HotPlug});
      }
    }

    /** HDCP_Init. */
    method HdcpInit(chip: Chip)
      modifies `hdcp
      ensures hdcp == old(hdcp).(supports := chip.supports, aksvValid := chip.supports && chip.aksvOk,
                                 started := false, level := NO_PROTECTION)
    {
      hdcp := hdcp.(supports := false);
      hdcp := hdcp.(aksvValid := false);
      hdcp := hdcp.(started := false);
      hdcp := hdcp.(level := NO_PROTECTION);
      if !chip.supports {
        return;
      }
      hdcp := hdcp.(supports := true);
      if !chip.aksvOk {
        return;
      }
      hdcp := hdcp.(aksvValid := true);
    }

    method ReadControl() returns (c: Control)
      ensures c == ReadSys(Abs())
    {
      c := if regs.held then ALL_ONES else regs.sys;
    }

    method EnableTmds()
      modifies `regs, `link
      ensures Abs() == HdmiTx.EnableTmds(old(Abs()))
    {
      var c := ReadControl();
      regs := regs.(sys := c.(down := false));
      link := link.(tmds := true);
    }

    method DisableTmds()
      modifies `regs, `link
      ensures Abs() == HdmiTx.DisableTmds(old(Abs()))
    {
      var c := ReadControl();
      regs := regs.(sys := c.(down := true, mute := true));
      link := link.(tmds := false);
    }

    method HdcpOff()
      modifies `regs, `hdcp
      ensures Abs() == HdmiTx.HdcpOff(old(Abs()))
    {
      var c := ReadControl();
      regs := regs.(sys := c.(mute := true));
      regs := regs.(protecting := false);
      hdcp := hdcp.(started := false);
      hdcp := hdcp.(level := NO_PROTECTION);
    }

    method HdcpOn()
      modifies `regs, `hdcp
      ensures Abs() == HdmiTx.HdcpOn(old(Abs()))
    {
      if !hdcp.bypass {
        regs := regs.(protecting := true);
        hdcp := hdcp.(started := true);
      } else {
        hdcp := hdcp.(started := false);
      }
    }

    method RestartHdcp()
      modifies `regs, `link, `hdcp
      ensures Abs() == HdmiTx.RestartHdcp(old(Abs()))
    {
      hide HdmiTx.EnableTmds, HdmiTx.DisableTmds, HdmiTx.HdcpOff, Abs;
      DisableTmds();
      HdcpOff();
      EnableTmds();
    }

    method OnLinkChange(link: Link)
      modifies `regs, `link, `hdcp
      ensures Abs() == LinkChange(old(Abs()), link)
    {
      hide HdmiTx.RestartHdcp, HdmiTx.HdcpOn, HdmiTx.HdcpOff, Abs;
      match link
      case Normal =>
      case Lost => RestartHdcp();
      case Renegotiate =>
        HdcpOff();
        HdcpOn();
      case Suspended => HdcpOn();
    }

    method OnLevelChange(newLevel: Level)
      modifies `regs, `link, `hdcp
      ensures Abs() == LevelChange(old(Abs()), newLevel)
    {
      hide HdmiTx.RestartHdcp;
      if newLevel != hdcp.level {
        hdcp := hdcp.(level := newLevel);
        if hdcp.level == NO_PROTECTION {
          RestartHdcp();
        } else if hdcp.level == LOCAL {
          var c := ReadControl();
          regs := regs.(sys := c.(mute := false));
        } else if hdcp.level == EXTENDED {
        } else {
          RestartHdcp();
        }
      }
    }

    /** HDCP_CheckStatus. */
    method CheckStatus(s: Status, q: Queries)
      modifies `regs, `link, `hdcp
      ensures Abs() == HdmiTx.CheckStatus(old(Abs()), s, q)
    {
      hide LinkChange, LevelChange, HdmiTx.HdcpOn;
      if hdcp.supports && hdcp.aksvValid {
        ghost var t := Abs();
        if hdcp.level == NO_PROTECTION && !hdcp.started {
          if q.available {
            HdcpOn();
          }
        }
        assert Abs() == StartIfIdle(t, q.available);
        hide StartIfIdle;
        if s.securityChange {
          OnLinkChange(q.link);
        }
        if s.hdcpChange {
          OnLevelChange(q.level);
        }
      }
    }

    method SetFormatMode()
      modifies `regs
      ensures Abs() == HdmiTx.SetFormatMode(old(Abs()))
    {
      var c := ReadControl();
      regs := regs.(sys := c.(hdmi := true));
      if !edid.sink {
        c := ReadControl();
        regs := regs.(sys := c.(hdmi := false));
      }
    }

    /** siHdmiTx_Init, after the video mode writes. */
    method Init()
      modifies `regs, `link
      ensures Abs() == HdmiTx.Init(old(Abs()))
    {
      SetFormatMode();
      hide HdmiTx.SetFormatMode;
      link := link.(d0 := true);
      ghost var t1 := Abs();
      assert t1 == HdmiTx.SetFormatMode(old(Abs())).(link := HdmiTx.SetFormatMode(old(Abs())).link.(d0 := true));
      var c := ReadControl();
      hide ReadSys;
      if hdcp.supports && hdcp.auth {
        if hdcp.aksvValid {
          regs := regs.(sys := c.(dynamic := true, down := false, mute := true));
          link := link.(tmds := true);
          regs := regs.(enabled := regs.enabled + {HotPlug, RxSense, AudioError, SecurityChange, HdcpChange});
        }
      } else {
        regs := regs.(sys := c.(dynamic := true, down := false, mute := false));
        link := link.(tmds := true);
        regs := regs.(enabled := regs.enabled + {HotPlug, RxSense, AudioError});
      }
    }

    method OnRxPoweredDown()
      modifies `link, `regs, `hdcp
      ensures Abs() == PoweredDown(old(Abs()))
    {
      hide HdmiTx.HdcpOff, HdmiTx.DisableTmds;
      link := link.(rx := false);
      if hdcp.started {
        HdcpOff();
      }
      DisableTmds();
      var c := ReadControl();
      regs := regs.(sys := c.(hdmi := false));
    }

    method OnRxPoweredUp()
      modifies `link, `regs
      ensures Abs() == PoweredUp(old(Abs()))
    {
      hide HdmiTx.Init;
      link := link.(rx := true);
      regs := regs.(enabled := {});
      Init();
    }

    method OnCableDisconnected()
      modifies `link, `edid, `regs, `hdcp
      ensures Abs() == Disconnected(old(Abs()))
    {
      hide PoweredDown;
      link := link.(cable := false);
      edid := edid.(valid := false);
      OnRxPoweredDown();
    }

    /** GetDDC_Access: up to fifty reads of the register, waiting for the grant bit. */
    method RequestDdc(images: seq<Control>) returns (granted: bool, saved: Control)
      requires |images| == DDC_ATTEMPTS
      modifies `regs
      ensures saved == ReadSys(old(Abs()))
      ensures granted == exists i: nat :: i < |images| && i < DDC_ATTEMPTS && images[i].grant
      ensures regs == old(regs).(sys := saved.(request := true, grant := saved.grant || granted))
    {
      saved := ReadControl();
      var c := saved.(request := true);
      regs := regs.(sys := c);
      var n: nat := 0;
      while n < DDC_ATTEMPTS
        invariant n <= DDC_ATTEMPTS && regs == old(regs).(sys := c)
        invariant forall i: nat | i < n :: !images[i].grant
      {
        if images[n].grant {
          regs := regs.(sys := c.(grant := true));
          return true, saved;
        }
        regs := regs.(sys := c);
        n := n + 1;
      }
      granted := false;
    }

    /** ReleaseDDC: up to fifty writes with both bus bits clear, until the register reads them clear. */
    method ReleaseDdc(saved: Control, images: seq<Control>) returns (released: bool)
      requires |images| == DDC_ATTEMPTS
      modifies `regs
      ensures released == exists i: nat :: i < |images| && i < DDC_ATTEMPTS && !images[i].grant && !images[i].request
      ensures regs == old(regs).(sys := saved.(request := false, grant := false))
    {
      var c := saved.(request := false, grant := false);
      var n: nat := 0;
      while n < DDC_ATTEMPTS
        invariant n <= DDC_ATTEMPTS
        invariant regs == if n > 0 then old(regs).(sys := c) else old(regs)
        invariant forall i: nat | i < n :: images[i].grant || images[i].request
      {
        regs := regs.(sys := c);
        if !images[n].grant && !images[n].request {
          return true;
        }
        n := n + 1;
      }
      released := false;
    }

    /** DoEdidRead. */
    method DoEdidRead(d: Ddc) returns (ok: bool)
      requires |d.request| == DDC_ATTEMPTS && |d.release| == DDC_ATTEMPTS
      modifies `regs, `edid
      ensures Abs() == ReadEdid(old(Abs()), d)
      ensures ok == edid.valid
    {
      if !edid.valid {
        var granted, saved := RequestDdc(d.request);
        if granted {
          regs := regs.(held := true);
          match d.edid {
            case Parsed(sink) => edid := edid.(sink := sink);
            case NoExtensions => edid := edid.(sink := false);
            case ParseFailed => edid := edid.(sink := true);
            case ExtensionFailed => edid := edid.(sink := true);
          }
          var released := ReleaseDdc(saved, d.release);
          if !released {
            return false;
          }
          regs := regs.(held := false);
        } else {
          edid := edid.(sink := true);
          return false;
        }
        edid := edid.(valid := true);
      }
      ok := true;
    }

    method OnCableConnected(d: Ddc)
      requires |d.request| == DDC_ATTEMPTS && |d.release| == DDC_ATTEMPTS
      modifies `link, `regs, `edid
      ensures Abs() == Connected(old(Abs()), d)
    {
      hide ReadEdid;
      link := link.(cable := true);
      var _ := DoEdidRead(d);
      var c := ReadControl();
      if edid.sink {
        regs := regs.(sys := c.(hdmi := true));
      } else {
        regs := regs.(sys := c.(hdmi := false));
      }
    }

    /** The do-while over a bouncing cable: the status of the first reading without a hot-plug event. */
    method Debounce(readings: seq<Status>) returns (s: Status)
      requires Bounces(readings)
      ensures s == readings[|readings| - 1] && !s.hotPlugEvent
      ensures forall i: nat | i < |readings| - 1 :: readings[i].hotPlugEvent
    {
      var n: nat := 0;
      s := readings[0];
      n := 1;
      while s.hotPlugEvent
        invariant 1 <= n <= |readings| && s == readings[n - 1]
        decreases |readings| - n
      {
        s := readings[n];
        n := n + 1;
      }
    }

    /** siHdmiTx_TPI_Poll. */
    method Poll(i: Input)
      requires Sound(i)
      modifies this
      ensures Abs() == HdmiTx.Poll(old(Abs()), i)
      ensures old(Inv(Abs())) ==> Keeps(old(Abs()), Abs())
    {
      if old(Inv(Abs())) {
        PollInv(Abs(), i);
      }
      hide Inv, Tracks, Recorded, Connected, Disconnected, PoweredDown, PoweredUp, HdmiTx.CheckStatus, Bounces;
      if link.d0 {
        var s := i.status;
        ghost var t := Abs();
        if s.hotPlugEvent {
          regs := regs.(enabled := regs.enabled + {HotPlug});
          s := Debounce(i.bounce);
          if s.hotPlugState != link.cable {
            if link.cable {
              OnCableDisconnected();
            } else {
              OnCableConnected(i.ddc);
            }
            assert Abs() == AfterHotPlug(t, i);
            if !link.cable {
              return;
            }
          }
        }
        assert Abs() == AfterHotPlug(t, i) && s == Settled(i);
        hide AfterHotPlug;
        ghost var t1 := Abs();
        if s.rxSenseState != link.rx {
          if link.cable {
            if link.rx {
              OnRxPoweredDown();
            } else {
              OnRxPoweredUp();
            }
          }
        }
        assert Abs() == AfterRxSense(t1, s);
        hide AfterRxSense;
        if link.cable && link.rx && hdcp.auth {
          CheckStatus(s, i.queries);
        }
      }
    }

    /** siHdmiTx_PowerStateD0fromD2. */
    method WakeFromD2()
      modifies this
      ensures Abs() == HdmiTx.WakeFromD2(old(Abs()))
    {
      hide HdmiTx.RestartHdcp;
      RestartHdcp();
      link := link.(d0 := true);
    }

    /** siHdmiTx_VideoSet. */
    method SetVideo(chip: Chip)
      modifies this
      ensures Abs() == VideoSet(old(Abs()), chip)
    {
      hide HdmiTx.Init, HdmiTx.TpiInit, Inv, Tracks, Recorded;
      var _ := TpiInit(chip);
      link := link.(cable := true);
      link := link.(rx := true);
      Init();
    }
  }
}
