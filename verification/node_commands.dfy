/** What the node does for its master: the NMT commands by number, the services that each state leaves open,
    and the two entries that the node itself works with. */
module NodeCommands {
  import opened Bytes
  import opened Wrappers
  import opened ObjectDictionary
  import opened Node
  import P = Pdo
  import Safety = PdoSafety
  import Can

  /** A command: two bytes under the identifier zero. */
  predicate Command(frame: Can.Frame, command: byte, target: byte) {
    && !frame.extended && !frame.remote && !frame.fd && frame.id == 0 && frame.size == 2
    && frame.data[0] == command && frame.data[1] == target
  }

  /** The commands of CiA 301 to this node or to all nodes, each announced by a heartbeat or a boot message;
      anything else leaves the node alone. */
  lemma CommandsByNumber(n: Slave, frame: Can.Frame, command: byte, target: byte, now: nat,
      sendOk: nat -> bool, hooks: Hooks)
    requires Inv(n) && Command(frame, command, target)
    ensures var n' := Handle(n, frame, now, sendOk, hooks);
      if target != 0 && target as int != n.nodeId then n' == n
      else if command in {0x01 as byte, 0x02, 0x80} then
        && n'.nmt == (if command == 0x01 then Operational else if command == 0x02 then Stopped else PreOperational)
        && n'.sdo == n.sdo && n'.pdo == n.pdo && n'.attempts == n.attempts + 1
      else if command in {0x81 as byte, 0x82} then
        && n'.nmt == PreOperational && n'.sdo == n.sdo.Reset() && n'.pdo == P.ResetCommunication(n.pdo)
        && n'.attempts == n.attempts + 1
      else n' == n
  {
    hide P.Inv, PeriodUs, P.ResetCommunication;
  }

  /** Whom a data frame other than a command is for. */
  lemma ServicesByState(n: Slave, frame: Can.Frame, now: nat, sendOk: nat -> bool, hooks: Hooks)
    requires Inv(n) && !frame.extended && !frame.remote && (frame.fd || frame.id != 0 || frame.size != 2)
    ensures P.Configured(n.pdo.od) && n.sdo.Sound()
    ensures var n' := Handle(n, frame, now, sendOk, hooks);
      var request := !frame.fd && frame.id == 0x600 + n.nodeId && frame.size == 8;
      var sync := !frame.fd && frame.id == 0x80 && frame.size <= 1;
      match n.nmt
      case Stopped => n' == n
      case PreOperational => n' == if request then SdoFrame(n, frame.data[..8], now, hooks) else n
      case Operational =>
        if request then n' == SdoFrame(n, frame.data[..8], now, hooks)
        else if sync then n' == n.(pdo := P.OnSync(n.pdo, 0, now, true, sendOk, hooks).0)
        else n' == n.(pdo := P.HandleFrame(n.pdo, frame, true, hooks).0)
  {
    SdoParts(n);
    hide P.Inv, P.HandleFrame, SdoFrame, P.SyncChannel, P.Configured;
    if n.nmt != Operational {
      NotOperational(n.pdo, frame, hooks);
    }
  }

  // ----- the node's own entries

  /** The producer heartbeat time: milliseconds, as the application's variable has them. */
  lemma PeriodInMilliseconds(od: Od, e: Entry)
    requires od.Valid() && Find(od.entries, OdKey(0x1017, 0)) == Some(e) && e.size == 2 && e.Scalar()
    ensures OdKey(0x1017, 0) in od.storage
    ensures PeriodUs(od) == 1000 * Native(od.bigEndian, od.storage[OdKey(0x1017, 0)])
  {
    hide Number, BigNumber, GetSize;
    var s := od.storage[OdKey(0x1017, 0)];
    NumberOfReversed(s);
    SizeIsNumber(od.Value(e));
  }

  /** So writing the entry sets the period. */
  lemma PeriodWritten(od: Od, e: Entry, source: seq<byte>, hooks: Hooks)
    requires od.Valid() && Find(od.entries, OdKey(0x1017, 0)) == Some(e) && e.size == 2 && e.Scalar()
    requires Write(od, OdKey(0x1017, 0), source, hooks).0 == NoAbort
    ensures PeriodUs(Write(od, OdKey(0x1017, 0), source, hooks).1) == 1000 * Number(source)
  {
    hide Number, BigNumber, PeriodUs;
    WriteStores(od, OdKey(0x1017, 0), source, hooks);
    PeriodInMilliseconds(Write(od, OdKey(0x1017, 0), source, hooks).1, e);
  }

  /** The clock: the application's variable holds the low 32 bits of the microseconds. */
  lemma ClockIsShown(od: Od, e: Entry, now: nat)
    requires od.Valid() && Find(od.entries, OdKey(0x1013, 0)) == Some(e) && e.size == 4 && e.Scalar()
    ensures OdKey(0x1013, 0) in Stamped(od, now).storage
    ensures Native(od.bigEndian, Stamped(od, now).storage[OdKey(0x1013, 0)]) == now % 0x1_0000_0000
  {
    hide Number, BigNumber, GetSize32, PutSize32;
    var s := PutSize32(now % 0x1_0000_0000);
    NumberOfReversed(s);
    SizeIsNumber(s);
  }
}
