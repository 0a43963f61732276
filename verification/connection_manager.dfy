/** The connection manager's variables, and its event handlers updating them. */
module ConnectionManager {
  import opened Wrappers
  import opened Bytes
  import Spec = RedialSpec

  class Manager {
    const config: Spec.Config
    var link: int
    var v4: byte
    var v6: byte
    var attached: byte
    var setupCallFail: nat
    var setupCallAllowTime: nat
    var auth: int
    ghost var acts: seq<Spec.Act>
    ghost var log: seq<Spec.Entry>

    ghost function State(): Spec.State
      reads this
    {
      Spec.State(link, v4, v6, attached, setupCallFail, setupCallAllowTime, auth, acts, log)
    }

    constructor (config: Spec.Config, now: nat, auth: int, attached: byte)
      ensures State() == Spec.Init(now, auth, attached) && this.config == config
    {
      this.config := config;
      link, v4, v6, this.attached := -1, Spec.Unknown, Spec.Unknown, attached;
      setupCallFail, setupCallAllowTime, this.auth := 0, now, auth;
      acts, log := [], [];
    }

    method ChangeLink(to: int)
      modifies this`link, this`acts
      ensures State() == Spec.ChangeLink(old(State()), to)
    {
      if link == to {
        return;
      }
      link := to;
      if to != 0 {
        acts := acts + [Spec.DhcpStart];
      } else {
        acts := acts + [Spec.DhcpStop];
      }
    }

    /** The start signal: dial every enabled family that is not up, then decide when to dial again. */
    method OnStart(now: nat, d4: Spec.Dial, d6: Spec.Dial)
      modifies this
      ensures State() == Spec.Step(config, old(State()), Spec.Start(now, d4, d6))
    {
      if attached != 1 {
        return;
      }
      if setupCallAllowTime > now {
        return;
      }
      ghost var entry := Spec.EntryOf(config, State(), now, d4, d6);
      DialFamilies(d4, d6);
      Settle(now);
      log := log + [entry];
    }

    method DialFamilies(d4: Spec.Dial, d6: Spec.Dial)
      modifies this`v4, this`v6, this`auth
      ensures State() == Spec.Dial6(config, Spec.Dial4(config, old(State()), d4), d6)
    {
      if config.v4 && v4 != Spec.Connected {
        var err := d4.first;
        if err > 0 && config.credentials {
          var old_auth := auth;
          auth := if auth == 1 then 2 else 1;
          err := d4.second;
          if err != 0 {
            auth := old_auth;
          }
        }
        if err == 0 {
          err := d4.address;
          if err == 0 {
            v4 := Spec.Connected;
          }
        }
      }
      if config.v6 && v6 != Spec.Connected {
        var err := d6.first;
        if err == 0 {
          err := d6.address;
          if err == 0 {
            v6 := Spec.Connected;
          }
        }
      }
    }

    /** Decides when the next dial may come. */
    method Settle(now: nat)
      modifies this`setupCallFail, this`setupCallAllowTime
      ensures State() == Spec.Settle(config, old(State()), now)
    {
      if (config.v4 && v4 == Spec.Disconnected) || (config.v6 && v6 == Spec.Disconnected) {
        var allowTime := [5, 10, 20, 40, 60];
        var delay: nat;
        if setupCallFail < |allowTime| {
          delay := allowTime[setupCallFail];
        } else {
          delay := 60;
        }
        setupCallFail := setupCallFail + 1;
        setupCallAllowTime := delay * 1000 + now;
      } else if v4 == Spec.Connected || v6 == Spec.Connected {
        setupCallFail := 0;
        setupCallAllowTime := now;
      }
    }

    /** The check signal: ask for both families, set the link, and say whether to signal a start. */
    method OnCheck(q4: Option<byte>, sameAddress: bool, q6: Option<byte>) returns (start: bool)
      modifies this
      ensures State() == Spec.Step(config, old(State()), Spec.Check(q4, sameAddress, q6))
      ensures start == Spec.Lacking(config, State())
    {
      if config.v4 {
        if q4.Some? {
          v4 := q4.value;
        }
        if v4 == Spec.Connected && !sameAddress {
          v4 := Spec.Disconnected;
        }
      } else {
        v4 := Spec.Disconnected;
      }
      if config.v6 {
        if q6.Some? {
          v6 := q6.value;
        }
      } else {
        v6 := Spec.Disconnected;
      }
      if v4 == Spec.Disconnected && v6 == Spec.Disconnected {
        ChangeLink(0);
      } else if v4 == Spec.Connected || v6 == Spec.Connected {
        ChangeLink(1);
      }
      start := (config.v4 && v4 == Spec.Disconnected) || (config.v6 && v6 == Spec.Disconnected);
    }

    method OnStop()
      modifies this`link, this`acts
      ensures State() == Spec.Step(config, old(State()), Spec.Stop)
    {
      ChangeLink(0);
    }

    /** The device is gone; when it is back the main loop starts over and reads the registration again. */
    method OnDeviceGone(attached: byte)
      modifies this`link, this`acts, this`attached
      ensures State() == Spec.Step(config, old(State()), Spec.DeviceGone(attached))
    {
      ChangeLink(0);
      this.attached := attached;
    }

    method OnNetworkChanged(now: nat, attached: byte) returns (start: bool)
      modifies this
      ensures State() == Spec.Step(config, old(State()), Spec.NetworkChanged(now, attached))
      ensures start == (attached == 1 && Spec.Lacking(config, State()))
    {
      this.attached := attached;
      start := false;
      if attached == 1 {
        start := (config.v4 && v4 == Spec.Disconnected) || (config.v6 && v6 == Spec.Disconnected);
      } else {
        setupCallAllowTime := now;
        log := log + [Spec.Released];
      }
    }

    method OnDataCallChanged(now: nat)
      modifies this
      ensures State() == Spec.Step(config, old(State()), Spec.DataCallChanged(now))
    {
      if v4 == Spec.Connected || v6 == Spec.Connected {
        setupCallAllowTime := now + 1000;
        log := log + [Spec.Released];
      }
    }

    /** A modem reset clears the flag without stopping DHCP; then the main loop starts over. */
    method OnModemReset(attached: byte)
      modifies this`link, this`acts, this`attached
      ensures State() == Spec.Step(config, old(State()), Spec.Reset(attached))
    {
      link := 0;
      acts := acts + [Spec.ModemReset];
      this.attached := attached;
    }
  }
}
