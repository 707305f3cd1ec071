/** The CANopen node in place: its NMT state and heartbeat schedule over the SDO server, the PDO
    manager and the dictionary that both share. */
module NodeInPlace {
  import opened Bytes
  import opened Wrappers
  import opened ObjectDictionary
  import opened SdoServer
  import opened PdoInPlace
  import opened Node
  import R = SdoRuns
  import P = Pdo
  import Safety = PdoSafety
  import H = Heartbeat
  import Can

  class CanOpenNode {
    const nodeId: u8
    const dictionary: Dictionary
    const sdo: Server
    const pdo: PdoManager
    var started: bool
    var nmt: NmtState
    var nextHeartbeat: nat
    var attempts: nat
    ghost var observed: seq<byte>

    ghost predicate Wired()
      reads this, sdo, sdo.transfer, pdo, dictionary, dictionary.entries
    {
      && sdo.dictionary == dictionary && pdo.dictionary == dictionary && sdo.nodeId == nodeId
      && dictionary.Valid() && sdo.Valid()
    }

    ghost function Model(): Slave
      requires Wired()
      reads this, sdo, sdo.transfer, pdo, dictionary, dictionary.entries
    {
      Slave(nodeId, nmt, sdo.Model(), pdo.Model(), nextHeartbeat, attempts, observed)
    }

    ghost predicate Valid()
      reads this, sdo, sdo.transfer, pdo, dictionary, dictionary.entries
    {
      Wired() && Inv(Model())
    }

    /** A node over services that share the dictionary; it does nothing until it is started. */
    constructor (dictionary: Dictionary, sdo: Server, pdo: PdoManager)
      requires sdo.dictionary == dictionary && pdo.dictionary == dictionary
      requires dictionary.Valid() && sdo.Valid() && sdo.state == Idle && pdo.Valid()
      ensures Valid() && !started && this.dictionary == dictionary && this.sdo == sdo && this.pdo == pdo
      ensures Model() == Slave(sdo.nodeId, PreOperational, sdo.Model(), pdo.Model(), 0, 0, [])
    {
      nodeId, this.dictionary, this.sdo, this.pdo := sdo.nodeId, dictionary, sdo, pdo;
      started, nmt, nextHeartbeat, attempts, observed := false, PreOperational, 0, 0, [];
      new;
      hide P.Inv;
    }

    method EnterState(state: NmtState, now: nat, announce: bool)
      requires Wired()
      modifies this
      ensures Wired() && started == old(started) && Model() == Node.EnterState(old(Model()), state, now, announce)
    {
      var period := PeriodUs(dictionary.Model());
      nmt := state;
      nextHeartbeat := if period == 0 then 0 else now + period;
      if announce {
        attempts := attempts + 1;
      }
    }

    /** A node with a proper number over a frozen dictionary boots into the pre-operational state;
        `bootSent` is the transport's answer to the boot message. */
    method Start(now: nat, bootSent: bool) returns (ok: bool)
      requires Wired()
      modifies this
      ensures Wired()
      ensures var may := !old(started) && 1 <= nodeId <= 127 && dictionary.frozen;
        && started == (old(started) || may) && ok == (may && bootSent)
        && Model() == if may
                      then Node.EnterState(old(Model()).(attempts := old(attempts) + 1), PreOperational, now, false)
                      else old(Model())
    {
      if started || nodeId == 0 || nodeId > 127 || !dictionary.frozen {
        return false;
      }
      started := true;
      attempts := attempts + 1;
      EnterState(PreOperational, now, false);
      return bootSent;
    }

    method ResetCommunication(now: nat)
      requires Valid()
      modifies this, sdo, pdo`rx, pdo`tx, pdo`revision, dictionary`storage
      ensures Valid() && started == old(started) && Model() == Node.ResetCommunication(old(Model()), now)
    {
      hide P.Inv, R.Inv, P.ResetCommunication, PeriodUs, P.Configured;
      ResetKeepsInv(Model(), now);
      Safety.ResetKeepsInv(pdo.Model());
      sdo.Reset();
      observed := [];
      pdo.ResetCommunication();
      attempts := attempts + 1;
      EnterState(PreOperational, now, false);
    }

    method HandleNmt(command: byte, target: byte, now: nat)
      requires Valid()
      modifies this, sdo, pdo`rx, pdo`tx, pdo`revision, dictionary`storage
      ensures Valid() && started == old(started) && Model() == Node.HandleNmt(old(Model()), command, target, now)
    {
      hide P.Inv, R.Inv, Node.ResetCommunication, PeriodUs;
      if target != 0 && target as int != nodeId {
        return;
      }
      if command == 0x01 {
        EnterState(Operational, now, true);
      } else if command == 0x02 {
        EnterState(NmtState.Stopped, now, true);
      } else if command == 0x80 {
        EnterState(PreOperational, now, true);
      } else if command == 0x81 || command == 0x82 {
        ResetCommunication(now);
      }
    }

    /** An SDO request. The manager's hook runs inside it; an accepted change of the configuration
        has moved the revision on when the request is answered. */
    method HandleSdo(frame: Can.Frame, now: nat, hooks: Hooks) returns (response: Option<Can.Frame>)
      requires Valid() && IsSdo(Model(), frame)
      modifies this, sdo, sdo.transfer, pdo`revision, dictionary`storage
      ensures Valid() && started == old(started) && Model() == SdoFrame(old(Model()), frame.data[..8], now, hooks)
    {
      hide P.Inv, R.Inv, R.Commit, R.Track, Request, P.ManagerHooks, P.Configured, Write, P.Hooked;
      SdoParts(Model());
      SdoFrameIsWrite(Model(), frame.data[..8], now, hooks);
      var server, od, m := sdo.Model(), dictionary.Model(), frame.data[..8];
      var guarded := P.ManagerHooks(od, pdo.fd, hooks);
      var input := R.In(m, now, guarded);
      ReceivedIsWorkspace(server, observed, input);
      var write := R.Commit(server, server.transfer[..server.offset], input);
      var accepted := write.Some? && P.Hooked(write.value.0)
          && Write(od, write.value.0, write.value.1, guarded).0 == NoAbort;
      var handled;
      handled, response := sdo.Handle(frame, now, guarded);
      observed := R.Track(observed, server, input, sdo.Model());
      pdo.revision := pdo.revision + if accepted then 1 else 0;
    }

    /** Frames go to NMT first, then to the SDO server unless stopped, then SYNC, then receive PDOs. */
    method Handle(frame: Can.Frame, now: nat, sendOk: nat -> bool, hooks: Hooks)
      returns (handled: bool, response: Option<Can.Frame>)
      requires Valid()
      modifies this, sdo, sdo.transfer, pdo, dictionary`storage
      ensures Valid() && started == old(started)
      ensures handled == (started && Consumed(old(Model()), frame, hooks))
      ensures Model() == if started then Node.Handle(old(Model()), frame, now, sendOk, hooks) else old(Model())
    {
      hide P.Inv, R.Inv, Node.HandleNmt, SdoFrame, P.OnSync, P.HandleFrame;
      handled, response := false, None;
      if started && !frame.extended && !frame.remote {
        handled := true;
        if IsNmt(frame) {
          HandleNmt(frame.data[0], frame.data[1], now);
        } else if nmt != NmtState.Stopped && sdo.Addressed(frame) {
          response := HandleSdo(frame, now, hooks);
        } else if IsSync(frame) {
          var attempted := pdo.OnSync(now, nmt == Operational, sendOk, hooks);
        } else {
          handled := pdo.Handle(frame, nmt == Operational, hooks);
        }
      }
    }

    /** The clock is shown through the dictionary. */
    method Stamp(now: nat)
      requires Valid()
      modifies dictionary`storage
      ensures dictionary.Valid() && dictionary.Model() == Stamped(old(dictionary.Model()), now)
      ensures Valid() && Model() == old(Model()).(pdo := old(pdo.Model()).(od := dictionary.Model()))
    {
      hide P.Inv, R.Inv, Find, Swap, PutSize32, P.Configured;
      StampKeepsInv(pdo.Model(), now);
      StampKeepsPeriod(dictionary.Model(), now);
      var index := dictionary.IndexOf(OdKey(0x1013, 0));
      if index < dictionary.size && dictionary.entries[index].size == 4 {
        var bytes := Swap(dictionary.entries[index], dictionary.bigEndian, PutSize32(now % 0x1_0000_0000));
        dictionary.storage := dictionary.storage[OdKey(0x1013, 0) := bytes];
      }
    }

    method KeepHeartbeat(now: nat)
      requires Wired()
      modifies this
      ensures Wired() && started == old(started)
      ensures var (next, published) := H.Beat(old(nextHeartbeat), now, PeriodUs(dictionary.Model()));
        Model() == old(Model()).(nextHeartbeat := next, attempts := old(attempts) + if published then 1 else 0)
    {
      hide H.Beat, PeriodUs;
      var published;
      nextHeartbeat, published := H.ProcessHeartbeat(nextHeartbeat, now, PeriodUs(dictionary.Model()));
      attempts := attempts + if published then 1 else 0;
    }

    /** The periodic call: the clock entry, SDO timeout, transmit timers, heartbeat. */
    method Process(now: nat, sendOk: nat -> bool, hooks: Hooks) returns (response: Option<Can.Frame>)
      requires Valid()
      modifies this, sdo, pdo, dictionary`storage
      ensures Valid() && started == old(started)
      ensures Model() == if started then Tick(old(Model()), now, sendOk, hooks) else old(Model())
    {
      hide P.Inv, R.Inv, P.Process, SdoServer.Process, H.Beat, R.Track, PeriodUs, Stamped;
      response := None;
      if started {
        TickKeepsInv(Model(), now, sendOk, hooks);
        Stamp(now);
        ghost var server := sdo.Model();
        response := sdo.ProcessTimeout(now);
        observed := R.Track(observed, server, R.Tick(now), sdo.Model());
        var attempted := pdo.Process(now, nmt == Operational, sendOk, hooks);
        KeepHeartbeat(now);
      }
    }
  }

  /** What a download has received is what the server's workspace holds so far. */
  lemma ReceivedIsWorkspace(s: Sdo, received: seq<byte>, input: R.Input)
    requires R.Inv(s, received)
    ensures s.offset <= |s.transfer| && R.Commit(s, s.transfer[..s.offset], input) == R.Commit(s, received, input)
  {
  }
}
