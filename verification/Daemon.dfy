// The daemon's loop as src/main.cpp writes it: variables changed step by step, phase by phase,
// with early ends of an iteration.  Each method is proved to compute the phase of DaemonLoop
// that carries the guarantees.
module Daemon {
  import opened Controller
  import opened DaemonLoop

  class Daemon {
    var phy: Phy
    var virt: Virtual
    var conf: Settings
    var bt: Bluetooth
    var grace: Grace
    var deviceOpen: bool
    var standalone: bool
    var ignorePhysical: bool
    var clock: nat

    function View(): State
      reads this
    {
      State(phy, virt, conf, bt, grace, deviceOpen, standalone, ignorePhysical, clock)
    }

    /** main(), up to the loop. */
    constructor (t: ControllerType, ds4: Backend, dualSense: Backend, m: HideMethod, now: nat)
      ensures View() == Start(t, ds4, dualSense, m, now) && Inv(View())
    {
      var b := if t == Ds4 then ds4 else dualSense;
      virt := Virtual(b, Absent, Absent, 0, {}, {});
      conf := Settings(t, t, false, b, false, false, ds4, dualSense, m, t == Passthrough);
      phy := Phy(false, 0, false, false, false);
      bt := Bluetooth(Absent, {}, {});
      grace := Grace(false, 0, [], []);
      deviceOpen, standalone, ignorePhysical, clock := false, false, false, now;
    }

    method CreateVirtualDevice(c: Creation) returns (created: bool)
      modifies this`virt
      ensures virt == Create(old(virt), c) && created == Creates(old(virt), c)
    {
      if virt.backend == FunctionFs {
        // functionfs_init: an old gadget goes first, its threads do not.
        virt := virt.(existing := virt.existing - Ids(virt.ffs), ffs := Absent);
        if c.ffsWorks {
          virt := virt.(ffs := Present(virt.created), existing := virt.existing + {virt.created});
          virt := virt.(threads := virt.threads + {virt.created}, created := virt.created + 1);
          return true;
        }
        virt := virt.(backend := Uhid);
      }
      if !c.uhidOpens {
        return false;
      }
      if !c.uhidWrites {
        virt := virt.(uhid := Absent);
        return false;
      }
      virt := virt.(uhid := Present(virt.created), existing := virt.existing + {virt.created});
      virt := virt.(created := virt.created + 1);
      return true;
    }

    method DestroyVirtualDevice()
      modifies this`virt
      ensures virt == Destroy(old(virt))
    {
      if virt.backend == FunctionFs {
        virt := virt.(threads := virt.threads - Ids(virt.ffs));
        virt := virt.(ffs := Absent, existing := virt.existing - Ids(virt.ffs));
      } else if virt.uhid.Present? {
        virt := virt.(uhid := Absent, existing := virt.existing - {virt.uhid.id});
      }
    }

    /** release_physical_connection, phy_fd = -1, phy_name = "". */
    method ReleasePhysical()
      modifies this`phy
      ensures phy == Release(old(phy))
    {
      if phy.unbindTransport {
        phy := phy.(unbindTransport := false);
      } else if phy.bpfTransport {
        phy := phy.(bpfTransport := false);
      }
      phy := phy.(open := false, name := 0);
    }

    method RestoreSuppressedBluetooth()
      modifies this`bt
      ensures bt == Restore(old(bt))
    {
      if bt.suppressed.Present? {
        bt := bt.(unbound := bt.unbound - {bt.suppressed.id});
        bt := bt.(suppressed := Absent);
      }
    }

    predicate VdevConfigured(ffsFlag: bool)
      reads this
    {
      Configured(virt, deviceOpen, ffsFlag)
    }

    /** The controller is gone; its device is kept if a host uses it. */
    method NoteDrop(ffsFlag: bool, at: nat)
      modifies this`grace
      ensures grace == BeginGrace(old(grace), Emulates(conf.targetType) && VdevConfigured(ffsFlag), at)
    {
      grace := grace.(drops := grace.drops + [at]);
      if Emulates(conf.targetType) && VdevConfigured(ffsFlag) {
        grace := grace.(pendingDestroy := true, dropTime := at);
      }
    }

    /** One connection attempt: the unbind method, the legacy method, or the one after the other. */
    method OpenPhysical(scan: Scan)
      modifies this`phy
      ensures phy == OpenFound(old(phy), UsesUnbind(conf, scan), scan)
    {
      var viaUnbind := false;
      if conf.hideMethod == HideMethod.Unbind && HidesPhysical(conf.targetType) {
        viaUnbind := scan.hidBus.Pad?;
      }
      if viaUnbind {
        phy := phy.(bluetooth := scan.hidBus.bluetooth);
        if scan.hidBus.opens {
          phy := phy.(open := true, name := scan.hidBus.name);
          if scan.hidBus.bluetooth {
            phy := phy.(bpfTransport := true);
          } else {
            phy := phy.(unbindTransport := true);
          }
          return;
        }
      }
      if scan.hidraw.Pad? {
        phy := phy.(bluetooth := scan.hidraw.bluetooth, open := scan.hidraw.opens);
        phy := phy.(name := if phy.open then scan.hidraw.name else 0);
      } else if viaUnbind {
        phy := phy.(name := 0);
      }
    }

    method ScanForPhysical(scan: Scan, c: Creation)
      requires !phy.open
      modifies this
      ensures View() == AutoScan(old(View()), scan, c)
    {
      OpenPhysical(scan);
      if !phy.open {
        return;
      }
      var created, reusedExisting := true, false;
      if conf.targetType == Passthrough || conf.targetType == Hidden {
      } else if grace.pendingDestroy {
        grace := grace.(pendingDestroy := false);
        reusedExisting := true;
      } else {
        created := CreateVirtualDevice(c);
      }
      if !created {
        ReleasePhysical();
      } else if !reusedExisting {
        deviceOpen := false;
      }
    }

    method CheckUsbUpgrade(u: Upgrade, now: nat)
      modifies this
      ensures View() == HotSwap(old(View()), u, now)
    {
      if u.usbFound && (phy.bpfTransport || u.resolves) {
        var btHidId := phy.name;
        if phy.bpfTransport {
          ReleasePhysical();
          NoteDrop(u.configured, now);
        }
        if u.unbindWorks && btHidId in bt.present {
          bt := bt.(unbound := bt.unbound + {btHidId});
        }
        bt := bt.(suppressed := Present(btHidId));
      }
    }

    /** The settings commands only leave a request behind. */
    method ChangeSettings(command: Command)
      modifies this`conf
      ensures conf == SettingsAfter(old(conf), command)
    {
      match command
      case SetType(t) =>
        if conf.targetType != t {
          conf := conf.(pendingType := t, typeRequested := true);
          if t == Ds4 {
            conf := conf.(pendingBackend := conf.backendDs4, backendRequested := true);
          } else if t == DualSense {
            conf := conf.(pendingBackend := conf.backendDualSense, backendRequested := true);
          }
        }
      case SetBackend(ds4, b) =>
        if ds4 && conf.backendDs4 != b {
          conf := conf.(backendDs4 := b);
          if conf.targetType == Ds4 {
            conf := conf.(pendingBackend := b, backendRequested := true);
          }
        } else if !ds4 && conf.backendDualSense != b {
          conf := conf.(backendDualSense := b);
          if conf.targetType == DualSense {
            conf := conf.(pendingBackend := b, backendRequested := true);
          }
        }
      case SetName(ds4, changed) =>
        if changed && conf.targetType == (if ds4 then Ds4 else DualSense) {
          conf := conf.(nameRequested := true);
        }
      case SetHideMethod(m, monitorWorks) =>
        if m == HideMethod.Legacy || monitorWorks {
          conf := conf.(hideMethod := m);
        }
      case _ =>
    }

    method HandleCommand(i: Input)
      modifies this
      ensures View() == Commanded(old(View()), i)
    {
      match i.command
      case CreateVirtual(ds4) =>
        if !phy.open && !standalone && !VdevConfigured(i.commandConfigured) {
          var created := CreateVirtualDevice(i.commandCreation);
          if created {
            standalone := true;
            conf := conf.(targetType := if ds4 then Ds4 else DualSense);
            deviceOpen := false;
          }
        }
      case DestroyVirtual =>
        if standalone {
          DestroyVirtualDevice();
          grace := grace.(pendingDestroy := false);
          standalone := false;
          deviceOpen := false;
        }
      case ReleasePhysical =>
        if !phy.open {
          ignorePhysical := true;
        } else {
          DestroyVirtualDevice();
          ReleasePhysical();
          RestoreSuppressedBluetooth();
          grace := grace.(pendingDestroy := false);
          deviceOpen := false;
          ignorePhysical := true;
        }
      case ResumePhysical =>
        ignorePhysical := false;
      case _ =>
        ChangeSettings(i.command);
    }

    /** The old device goes under the old backend, and the controller with it. */
    method TakeOldDown()
      modifies this`conf, this`virt, this`grace, this`phy, this`bt
      ensures conf == old(conf).(targetType := old(conf).pendingType, typeRequested := false, backendRequested := false,
                                 sentinel := old(conf).pendingType.Passthrough?)
      ensures virt == Destroy(old(virt)).(backend := old(conf).pendingBackend)
      ensures grace == old(grace).(pendingDestroy := false) && bt == Restore(old(bt))
      ensures phy == if old(phy).open then Release(old(phy)) else old(phy)
    {
      hide Destroy, Release, Restore;
      conf := conf.(targetType := conf.pendingType, typeRequested := false);
      DestroyVirtualDevice();
      virt := virt.(backend := conf.pendingBackend);
      conf := conf.(backendRequested := false);
      grace := grace.(pendingDestroy := false);
      conf := conf.(sentinel := conf.targetType == Passthrough);
      if phy.open {
        ReleasePhysical();
      }
      RestoreSuppressedBluetooth();
    }

    method ApplyTypeOrBackend(c: Creation)
      modifies this
      ensures View() == Reconfigured(old(View()), c)
    {
      hide Create, Destroy, Creates, Release, Restore;
      if !conf.typeRequested && !conf.backendRequested {
        return;
      }
      var hadPhysical := phy.open;
      TakeOldDown();
      if conf.targetType == Passthrough || conf.targetType == Hidden {
        standalone := false;
      } else if !hadPhysical && standalone {
        var created := CreateVirtualDevice(c);
        if created {
          deviceOpen := false;
        }
      }
    }

    method ApplyName(ffsFlag: bool, c: Creation)
      modifies this
      ensures View() == Renamed(old(View()), ffsFlag, c)
    {
      if conf.nameRequested {
        conf := conf.(nameRequested := false);
        if VdevConfigured(ffsFlag) {
          DestroyVirtualDevice();
          var created := CreateVirtualDevice(c);
          if created {
            deviceOpen := false;
          }
        }
      }
    }

    method HandleDrop(ffsFlag: bool, at: nat)
      modifies this
      ensures View() == PhysicalDropped(old(View()), ffsFlag, at)
    {
      var wasBluetooth := phy.bluetooth;
      ReleasePhysical();
      if !wasBluetooth {
        RestoreSuppressedBluetooth();
      }
      NoteDrop(ffsFlag, at);
    }

    method CheckGrace(now: nat)
      modifies this
      ensures View() == GraceChecked(old(View()), now)
    {
      if grace.pendingDestroy && now - grace.dropTime >= GRACE {
        if Live(virt).Present? {
          grace := grace.(expired := grace.expired + [Expiry(Live(virt).id, now, grace.dropTime, |grace.drops|)]);
        }
        DestroyVirtualDevice();
        deviceOpen := false;
        grace := grace.(pendingDestroy := false);
      }
    }

    method HandleUhid(e: UhidEvent)
      modifies this
      ensures View() == UhidHandled(old(View()), e)
    {
      match e
      case Quiet =>
      case Dropped =>
        virt := CloseUhid(virt);
        standalone := false;
      case ReadFailed =>
        virt := CloseUhid(virt);
      case Opened =>
        if virt.uhid.Present? {
          deviceOpen := true;
        }
      case Closed =>
        if virt.uhid.Present? {
          deviceOpen := false;
        }
    }

    /** The top of the loop body, up to poll(). */
    method LookForPhysical(i: Input)
      modifies this
      ensures View() == Head(old(View()), i)
    {
      hide AutoScan, HotSwap;
      bt, clock := bt.(present := i.present, unbound := bt.unbound * i.present), i.later;
      if !phy.open && !standalone && !ignorePhysical {
        ScanForPhysical(i.scan, i.scanCreation);
      } else if phy.open && phy.bluetooth && !standalone && !ignorePhysical {
        CheckUsbUpgrade(i.upgrade, i.now);
      }
    }

    /** The rest of it, after the IPC socket; `return` is the source's `continue`. */
    method ApplyAndPoll(i: Input, phyPolled: bool, uhidPolled: bool)
      requires i.poll.Ready?
      modifies this
      ensures View() == Tail(old(View()), i, phyPolled, uhidPolled)
    {
      hide Reconfigured, Renamed, PhysicalDropped, GraceChecked, UhidHandled;
      ApplyTypeOrBackend(i.commandCreation);
      ApplyName(i.renameConfigured, i.renameCreation);
      if phyPolled && i.poll.hangUp {
        HandleDrop(i.dropConfigured, i.later);
        return;
      }
      CheckGrace(i.later);
      if uhidPolled {
        HandleUhid(i.uhidEvent);
      }
    }

    /** The body of `while (running)`. */
    method OneIteration(i: Input)
      modifies this
      ensures View() == Iterate(old(View()), i)
    {
      hide Head, Commanded, Tail;
      LookForPhysical(i);
      var phyPolled, uhidPolled := phy.open, virt.backend == Uhid && virt.uhid.Present?;
      if i.poll.Interrupted? {
        return;
      }
      HandleCommand(i);
      ApplyAndPoll(i, phyPolled, uhidPolled);
    }

    method Loop(inputs: seq<Input>)
      requires Inv(View())
      modifies this
      ensures View() == Run(old(View()), inputs) && Inv(View())
    {
      var k := 0;
      while k < |inputs|
        invariant 0 <= k <= |inputs|
        invariant Inv(View()) && Run(View(), inputs[k..]) == Run(old(View()), inputs)
      {
        hide Iterate, Inv;
        InvHolds(View(), inputs[k]);
        OneIteration(inputs[k]);
        assert inputs[k..][1..] == inputs[k + 1..];
        k := k + 1;
      }
    }

    /** main(), after the loop. */
    method Finish()
      modifies this
      ensures View() == Shutdown(old(View()))
    {
      DestroyVirtualDevice();
      if phy.open {
        ReleasePhysical();
      }
      RestoreSuppressedBluetooth();
    }
  }
}
