/** The CANopen object dictionary: a fixed table searched linearly, whose entries guard the bytes
    behind them by access, size and hooks, and show them in little-endian order on either machine. */
module ObjectDictionary {
  import opened Bytes
  import opened Wrappers

  datatype OdKey = OdKey(index: u16, subindex: u8)

  datatype DataType =
    | Boolean | Integer8 | Integer16 | Integer32 | Unsigned8 | Unsigned16 | Unsigned32 | Real32
    | VisibleString | OctetString | Unsigned64

  datatype Access = ReadOnly | WriteOnly | ReadWrite {
    predicate Readable() { this != WriteOnly }
    predicate Writable() { this != ReadOnly }
  }

  datatype AbortCode =
    | NoAbort | ToggleBit | ProtocolTimeout | InvalidCommand | OutOfMemory | AccessWriteOnly | AccessReadOnly
    | ObjectNotFound | NotMappable | PdoLengthExceeded | ParameterIncompatible | TypeMismatch | DataTooLong
    | DataTooShort | ValueRange | GeneralError | DataStore | DeviceState
  {
    function Number(): bv32 {
      match this
      case NoAbort => 0
      case ToggleBit => 0x0503_0000
      case ProtocolTimeout => 0x0504_0000
      case InvalidCommand => 0x0504_0001
      case OutOfMemory => 0x0504_0005
      case AccessWriteOnly => 0x0601_0001
      case AccessReadOnly => 0x0601_0002
      case ObjectNotFound => 0x0602_0000
      case NotMappable => 0x0604_0041
      case PdoLengthExceeded => 0x0604_0042
      case ParameterIncompatible => 0x0604_0043
      case TypeMismatch => 0x0607_0010
      case DataTooLong => 0x0607_0012
      case DataTooShort => 0x0607_0013
      case ValueRange => 0x0609_0030
      case GeneralError => 0x0800_0000
      case DataStore => 0x0800_0020
      case DeviceState => 0x0800_0022
    }
  }

  const MAX_ENTRIES := 224

  datatype Entry = Entry(
    key: OdKey, dtype: DataType, access: Access, pdoMappable: bool, size: nat, readHook: bool, writeHook: bool)
  {
    predicate Scalar() {
      dtype != VisibleString && dtype != OctetString
    }
  }

  /** What the hooks of the application answer during one operation: a reading hook fills the
      entry's bytes, a writing hook may refuse. They are arbitrary, and may differ at every call. */
  datatype Hooks = Hooks(read: OdKey -> (AbortCode, seq<byte>), write: (OdKey, seq<byte>) -> AbortCode)

  // ----- the dictionary as a value

  /** The table, and the native bytes behind each entry. */
  datatype Od = Od(entries: seq<Entry>, storage: map<OdKey, seq<byte>>, bigEndian: bool) {
    ghost predicate Valid() {
      && |entries| <= MAX_ENTRIES
      && (forall i, j :: 0 <= i < j < |entries| ==> entries[i].key != entries[j].key)
      && (forall i :: 0 <= i < |entries| ==>
            && entries[i].key in storage
            && entries[i].size > 0
            && |storage[entries[i].key]| == entries[i].size)
    }

    /** The bytes of an entry as they travel. */
    function Value(e: Entry): seq<byte>
      requires e.key in storage
    {
      Swap(e, bigEndian, storage[e.key])
    }

    function With(e: Entry, wireBytes: seq<byte>): Od {
      this.(storage := storage[e.key := Swap(e, bigEndian, wireBytes)])
    }
  }

  type ValidOd = od: Od | od.Valid() witness Od([], map[], false)

  /** Between native and little-endian order: scalars are reversed on a big-endian machine. */
  function Swap(e: Entry, bigEndian: bool, s: seq<byte>): (t: seq<byte>)
    ensures |t| == |s|
  {
    if bigEndian && e.Scalar() then Reversed(s) else s
  }

  function Reversed(s: seq<byte>): (t: seq<byte>)
    ensures |t| == |s|
    ensures forall i :: 0 <= i < |s| ==> t[i] == s[|s| - 1 - i]
  {
    seq(|s|, i requires 0 <= i < |s| => s[|s| - 1 - i])
  }

  lemma SwapTwice(e: Entry, bigEndian: bool, s: seq<byte>)
    ensures Swap(e, bigEndian, Swap(e, bigEndian, s)) == s
  {
    assert Reversed(Reversed(s)) == s;
  }

  function Find(entries: seq<Entry>, key: OdKey): (r: Option<Entry>)
    ensures r.Some? ==> r.value in entries && r.value.key == key
    ensures r.None? ==> forall i :: 0 <= i < |entries| ==> entries[i].key != key
    decreases |entries|
  {
    if |entries| == 0 then None
    else if entries[0].key == key then Some(entries[0])
    else Find(entries[1..], key)
  }

  function Read(od: Od, key: OdKey, capacity: nat, hooks: Hooks): (AbortCode, seq<byte>)
    requires od.Valid()
  {
    var found := Find(od.entries, key);
    if found.None? then (ObjectNotFound, [])
    else
      var e := found.value;
      if !e.access.Readable() then (AccessWriteOnly, [])
      else if capacity < e.size then (OutOfMemory, [])
      else if e.readHook then
        var (code, bytes) := hooks.read(key);
        if code != NoAbort then (code, []) else (NoAbort, Resize(bytes, e.size))
      else (NoAbort, od.Value(e))
  }

  /** A reading hook is given exactly the entry's bytes to fill. */
  function Resize(s: seq<byte>, n: nat): (t: seq<byte>)
    ensures |t| == n
  {
    if |s| >= n then s[..n] else s + Zeros(n - |s|)
  }

  function Write(od: Od, key: OdKey, source: seq<byte>, hooks: Hooks): (r: (AbortCode, Od))
    requires od.Valid()
    ensures r.1.Valid() && r.1.entries == od.entries && (r.0 != NoAbort ==> r.1 == od)
  {
    var found := Find(od.entries, key);
    if found.None? then (ObjectNotFound, od)
    else
      var e := found.value;
      if !e.access.Writable() then (AccessReadOnly, od)
      else if |source| > e.size then (DataTooLong, od)
      else if |source| < e.size then (DataTooShort, od)
      else
        var verdict := if e.writeHook then hooks.write(key, source) else NoAbort;
        if verdict != NoAbort then (verdict, od) else (NoAbort, od.With(e, source))
  }

  // ----- laws

  /** Linear search finds the entry itself, because keys are unique. */
  lemma {:induction false} FindUnique(entries: seq<Entry>, e: Entry)
    requires e in entries
    requires forall i, j :: 0 <= i < j < |entries| ==> entries[i].key != entries[j].key
    ensures Find(entries, e.key) == Some(e)
    decreases |entries|
  {
    if entries[0] != e {
      FindUnique(entries[1..], e);
    }
  }

  /** What is written reads back, on machines of either byte order. */
  lemma ReadAfterWrite(od: Od, key: OdKey, source: seq<byte>, capacity: nat, hooks: Hooks, later: Hooks)
    requires od.Valid() && Write(od, key, source, hooks).0 == NoAbort
    requires var e := Find(od.entries, key).value; e.access.Readable() && !e.readHook && e.size <= capacity
    ensures Read(Write(od, key, source, hooks).1, key, capacity, later) == (NoAbort, source)
  {
    SwapTwice(Find(od.entries, key).value, od.bigEndian, source);
  }

  lemma {:induction false} NumberOfReversed(s: seq<byte>)
    ensures Number(Reversed(s)) == BigNumber(s) && BigNumber(Reversed(s)) == Number(s)
    decreases |s|
  {
    if s == [] {
    } else {
      var rest, last := s[..|s| - 1], s[|s| - 1];
      assert Reversed(s) == [last] + Reversed(rest);
      assert ([last] + Reversed(rest))[1..] == Reversed(rest);
      NumberOfReversed(rest);
      assert Reversed(s) == Reversed(s[1..]) + [s[0]];
      NumberOfReversed(s[1..]);
      NumberOfBack(Reversed(s[1..]), s[0]);
    }
  }

  /** The number that the machine takes the bytes of a variable for. */
  function Native(bigEndian: bool, s: seq<byte>): nat {
    if bigEndian then BigNumber(s) else Number(s)
  }

  /** A hook's bytes in an entry: as many as it has, zeros behind them. */
  predicate Fills(source: seq<byte>, bytes: seq<byte>, size: nat) {
    && |bytes| == size
    && forall i :: 0 <= i < size ==> bytes[i] == if i < |source| then source[i] else 0
  }

  /** Reading shows the application's variable: exactly when, and as a little-endian number with the
      value that it has on this machine, or unchanged if it is a string. */
  lemma ReadShows(od: Od, key: OdKey, capacity: nat, hooks: Hooks)
    requires od.Valid()
    ensures var (code, bytes), e := Read(od, key, capacity, hooks), Find(od.entries, key);
      && (e.None? ==> code == ObjectNotFound)
      && (e.Some? && e.value.access == WriteOnly ==> code == AccessWriteOnly)
      && (e.Some? && e.value.access != WriteOnly && capacity < e.value.size ==> code == OutOfMemory)
      && (e.Some? && e.value.access != WriteOnly && capacity >= e.value.size ==>
            if e.value.readHook then
              && code == hooks.read(key).0
              && (code == NoAbort ==> Fills(hooks.read(key).1, bytes, e.value.size))
            else
              && code == NoAbort
              && if e.value.dtype in {VisibleString, OctetString} then bytes == od.storage[key]
                 else |bytes| == e.value.size && Number(bytes) == Native(od.bigEndian, od.storage[key]))
      && (code != NoAbort ==> bytes == [])
  {
    hide Number, BigNumber;
    if Find(od.entries, key).Some? {
      NumberOfReversed(od.storage[key]);
    }
  }

  /** Writing: exactly when it is accepted, why not otherwise, and that the application's variable then has
      the value of the little-endian number written. */
  lemma WriteStores(od: Od, key: OdKey, source: seq<byte>, hooks: Hooks)
    requires od.Valid()
    ensures var (code, od'), e := Write(od, key, source, hooks), Find(od.entries, key);
      && (e.None? ==> code == ObjectNotFound)
      && (e.Some? && e.value.access == ReadOnly ==> code == AccessReadOnly)
      && (e.Some? && e.value.access != ReadOnly && |source| > e.value.size ==> code == DataTooLong)
      && (e.Some? && e.value.access != ReadOnly && |source| < e.value.size ==> code == DataTooShort)
      && (e.Some? && e.value.access != ReadOnly && |source| == e.value.size ==>
            code == if e.value.writeHook then hooks.write(key, source) else NoAbort)
      && (code == NoAbort ==>
            && key in od'.storage
            && if e.value.dtype in {VisibleString, OctetString} then od'.storage[key] == source
               else |od'.storage[key]| == |source| && Native(od.bigEndian, od'.storage[key]) == Number(source))
  {
    hide Number, BigNumber;
    NumberOfReversed(source);
  }

  /** A write touches one entry at most, and nothing when it is refused. */
  lemma WriteTouchesOne(od: Od, key: OdKey, source: seq<byte>, hooks: Hooks, other: OdKey)
    requires od.Valid()
    ensures var (code, od') := Write(od, key, source, hooks);
      && od'.entries == od.entries && od'.bigEndian == od.bigEndian
      && (code != NoAbort ==> od' == od)
      && (other in od.storage && other != key ==> other in od'.storage && od'.storage[other] == od.storage[other])
  {
  }

  /** One step of the search. */
  lemma FindFrom(entries: seq<Entry>, key: OdKey, i: nat)
    requires i < |entries|
    ensures Find(entries[i..], key) == if entries[i].key == key then Some(entries[i]) else Find(entries[i + 1..], key)
  {
    assert entries[i..][1..] == entries[i + 1..];
  }

  lemma FindNone(key: OdKey)
    ensures Find([], key) == None
  {
  }

  /** Appending an entry with a new key keeps every earlier search result and finds the new entry. */
  lemma {:induction false} FindAppend(entries: seq<Entry>, e: Entry, key: OdKey)
    requires Find(entries, e.key).None?
    ensures Find(entries + [e], key) == if key == e.key then Some(e) else Find(entries, key)
    decreases |entries|
  {
    if |entries| == 0 {
    } else {
      assert (entries + [e])[1..] == entries[1..] + [e];
      FindAppend(entries[1..], e, key);
    }
  }

  // ----- the table in place

  class Dictionary {
    const bigEndian: bool
    const entries: array<Entry>
    var size: nat
    var frozen: bool
    var storage: map<OdKey, seq<byte>>

    function Model(): Od
      reads this, entries
      requires size <= entries.Length
    {
      Od(entries[..size], storage, bigEndian)
    }

    ghost predicate Valid()
      reads this, entries
    {
      entries.Length == MAX_ENTRIES && size <= MAX_ENTRIES && Model().Valid()
    }

    constructor (bigEndian: bool)
      ensures Valid() && !frozen && fresh(entries)
      ensures Model() == Od([], map[], bigEndian)
    {
      this.bigEndian := bigEndian;
      entries := new Entry[MAX_ENTRIES](_ => Entry(OdKey(0, 0), OctetString, ReadOnly, false, 0, false, false));
      size, frozen, storage := 0, false, map[];
    }

    method Freeze()
      requires Valid()
      modifies this`frozen
      ensures Valid() && frozen
    {
      frozen := true;
    }

    /** Position of the first entry with the key, or the table size. */
    method IndexOf(key: OdKey) returns (index: nat)
      requires Valid()
      ensures index <= size
      ensures Find(entries[..size], key) == if index == size then None else Some(entries[index])
    {
      hide Find;
      index := 0;
      ghost var all := entries[..size];
      while index < size
        invariant index <= size && all == entries[..size]
        invariant Find(all, key) == Find(all[index..], key)
      {
        FindFrom(all, key, index);
        assert all[index] == entries[index];
        if entries[index].key == key {
          return;
        }
        index := index + 1;
      }
      FindNone(key);
      assert all[size..] == [];
    }

    /** Entries are only added before the table is frozen, never twice under one key. */
    method Add(entry: Entry, initial: seq<byte>) returns (code: AbortCode)
      requires Valid() && |initial| == entry.size
      modifies this`size, this`storage, entries
      ensures Valid()
      ensures code ==
        if frozen || entry.size == 0 || old(size) >= 224 then OutOfMemory
        else if Find(old(entries[..size]), entry.key).Some? then ParameterIncompatible
        else NoAbort
      ensures Model() ==
        if code == NoAbort
        then Od(old(Model()).entries + [entry], old(storage)[entry.key := initial], bigEndian)
        else old(Model())
    {
      if frozen || entry.size == 0 || size >= MAX_ENTRIES {
        return OutOfMemory;
      }
      var index := IndexOf(entry.key);
      if index < size {
        return ParameterIncompatible;
      }
      ghost var was := entries[..size];
      entries[size] := entry;
      storage := storage[entry.key := initial];
      size := size + 1;
      assert entries[..size] == was + [entry];
      return NoAbort;
    }

    method ReadValue(key: OdKey, capacity: nat, hooks: Hooks) returns (code: AbortCode, bytes: seq<byte>)
      requires Valid()
      ensures (code, bytes) == Read(Model(), key, capacity, hooks)
    {
      var index := IndexOf(key);
      if index == size {
        return ObjectNotFound, [];
      }
      var entry := entries[index];
      if !entry.access.Readable() {
        return AccessWriteOnly, [];
      }
      if capacity < entry.size {
        return OutOfMemory, [];
      }
      if entry.readHook {
        var (result, filled) := hooks.read(key);
        if result != NoAbort {
          return result, [];
        }
        return NoAbort, Resize(filled, entry.size);
      }
      return NoAbort, Swap(entry, bigEndian, storage[entry.key]);
    }

    method WriteValue(key: OdKey, source: seq<byte>, hooks: Hooks) returns (code: AbortCode)
      requires Valid()
      modifies this`storage
      ensures Valid()
      ensures (code, Model()) == Write(old(Model()), key, source, hooks)
    {
      var index := IndexOf(key);
      if index == size {
        return ObjectNotFound;
      }
      var entry := entries[index];
      if !entry.access.Writable() {
        return AccessReadOnly;
      }
      if |source| > entry.size {
        return DataTooLong;
      }
      if |source| < entry.size {
        return DataTooShort;
      }
      if entry.writeHook {
        var verdict := hooks.write(key, source);
        if verdict != NoAbort {
          return verdict;
        }
      }
      storage := storage[entry.key := Swap(entry, bigEndian, source)];
      return NoAbort;
    }
  }
}
