/**
 Settings and results as they cross the binder (scanning/single_scan_settings.cpp, scanning/pno_settings.cpp,
 scanning/scan_result.cpp). A parcel is a tape of typed items; its byte layout is not part of this model.
 */
module Parcelables {
  import opened Bytes
  import opened PnoRequest

  const SCAN_TYPE_LOW_SPAN: int := 0
  const SCAN_TYPE_LOW_POWER: int := 1
  const SCAN_TYPE_HIGH_ACCURACY: int := 2

  /** A 32-bit word, a 64-bit word, or a byte vector. */
  datatype Item = Word(bits: nat) | DoubleWord(bits: nat) | ByteVector(bytes: Buffer)

  type Tape = seq<Item>

  // ---- single values ----

  /** writeInt32: only the low 32 bits are kept. */
  function Int32Item(v: int): Item {
    Word(v % U32_SIZE)
  }

  function Signed32(bits: nat): int {
    var low := bits % U32_SIZE;
    if low < 0x8000_0000 then low else low - U32_SIZE
  }

  function ReadInt32(t: Tape): Option<(int, Tape)> {
    if t != [] && t[0].Word? then Some((Signed32(t[0].bits), t[1..])) else None
  }

  function ReadUint32(t: Tape): Option<(nat, Tape)> {
    if t != [] && t[0].Word? then Some((t[0].bits, t[1..])) else None
  }

  function ReadUint64(t: Tape): Option<(nat, Tape)> {
    if t != [] && t[0].DoubleWord? then Some((t[0].bits, t[1..])) else None
  }

  function ReadByteVector(t: Tape): Option<(Buffer, Tape)> {
    if t != [] && t[0].ByteVector? then Some((t[0].bytes, t[1..])) else None
  }

  lemma {:induction false} Int32RoundTrip(v: int, rest: Tape)
    ensures ReadInt32([Int32Item(v)] + rest) == Some((Signed32(v % U32_SIZE), rest))
    ensures Signed32(v % U32_SIZE) == v <==> IsInt32(v)
  {
    assert ([Int32Item(v)] + rest)[1..] == rest;
  }

  // ---- lists of objects ----

  type Writer<!T> = T -> Tape
  type Reader<!T> = Tape -> Option<(T, Tape)>

  /** Each object after a leading one. */
  function WriteEach<T>(write: Writer<T>, list: seq<T>): Tape {
    if list == [] then [] else [Int32Item(1)] + write(list[0]) + WriteEach(write, list[1..])
  }

  function WriteList<T>(write: Writer<T>, list: seq<T>): Tape {
    [Int32Item(|list|)] + WriteEach(write, list)
  }

  /** One object, which must follow a leading one. */
  function ReadOne<T>(read: Reader<T>, t: Tape): Option<(T, Tape)> {
    match ReadInt32(t)
    case None => None
    case Some((leading, rest)) => if leading == 1 then read(rest) else None
  }

  /** The target list gains the objects that could be read, also on failure. */
  function ReadEach<T>(read: Reader<T>, n: nat, target: seq<T>, t: Tape): (bool, seq<T>, Tape) {
    if n == 0 then (true, target, t)
    else
      match ReadOne(read, t)
      case None => (false, target, t)
      case Some((x, rest)) => ReadEach(read, n - 1, target + [x], rest)
  }

  function Count(n: int): nat {
    if n < 0 then 0 else n
  }

  function ReadList<T>(read: Reader<T>, target: seq<T>, t: Tape): (bool, seq<T>, Tape) {
    match ReadInt32(t)
    case None => (false, target, t)
    case Some((n, rest)) => ReadEach(read, Count(n), target, rest)
  }

  /** Reading one object gives it back, whatever follows. */
  ghost predicate Restores<T(!new)>(write: Writer<T>, read: Reader<T>, x: T) {
    forall rest: Tape :: read(write(x) + rest) == Some((x, rest))
  }

  ghost predicate AllRestore<T(!new)>(write: Writer<T>, read: Reader<T>, list: seq<T>) {
    forall i :: 0 <= i < |list| ==> Restores(write, read, list[i])
  }

  lemma {:induction false} ReadOneWritten<T(!new)>(write: Writer<T>, read: Reader<T>, x: T, rest: Tape)
    requires Restores(write, read, x)
    ensures ReadOne(read, [Int32Item(1)] + write(x) + rest) == Some((x, rest))
  {
    Int32RoundTrip(1, write(x) + rest);
    Regroup([Int32Item(1)], write(x), rest);
  }

  lemma {:induction false} EachRoundTrip<T(!new)>(write: Writer<T>, read: Reader<T>, list: seq<T>, target: seq<T>, suffix: Tape)
    requires AllRestore(write, read, list)
    ensures ReadEach(read, |list|, target, WriteEach(write, list) + suffix) == (true, target + list, suffix)
  {
    if list == [] {
      assert WriteEach(write, list) + suffix == suffix && target + list == target;
    } else {
      var x, others := list[0], list[1..];
      EachRoundTrip(write, read, others, target + [x], suffix);
      Regroup([Int32Item(1)] + write(x), WriteEach(write, others), suffix);
      ReadOneWritten(write, read, x, WriteEach(write, others) + suffix);
      assert target + [x] + others == target + list;
    }
  }

  lemma {:induction false} ReadEachBound<T>(read: Reader<T>, n: nat, target: seq<T>, t: Tape)
    ensures target <= ReadEach(read, n, target, t).1
    ensures |ReadEach(read, n, target, t).1| <= |target| + n
  {
    if n > 0 && ReadOne(read, t).Some? {
      ReadEachBound(read, n - 1, target + [ReadOne(read, t).value.0], ReadOne(read, t).value.1);
    }
  }

  /**
   A list is appended to the target and its items are consumed exactly, when its size fits the signed 32-bit
   count; a longer one never arrives whole.
   */
  lemma {:induction false} ListRoundTrip<T(!new)>(write: Writer<T>, read: Reader<T>, list: seq<T>, target: seq<T>, suffix: Tape)
    requires AllRestore(write, read, list)
    ensures |list| < 0x8000_0000 ==>
              ReadList(read, target, WriteList(write, list) + suffix) == (true, target + list, suffix)
    ensures |list| >= 0x8000_0000 ==>
              |ReadList(read, target, WriteList(write, list) + suffix).1| < |target| + |list|
  {
    Regroup([Int32Item(|list|)], WriteEach(write, list), suffix);
    Int32RoundTrip(|list|, WriteEach(write, list) + suffix);
    if |list| < 0x8000_0000 {
      EachRoundTrip(write, read, list, target, suffix);
    } else {
      ReadEachBound(read, Count(Signed32(|list| % U32_SIZE)), target, WriteEach(write, list) + suffix);
    }
  }

  // ---- the objects in lists ----

  datatype RadioChainInfo = RadioChainInfo(chainId: int, level: int)

  function WriteChannel(frequency: int): Tape {
    [Int32Item(frequency)]
  }

  function WriteHidden(ssid: Ssid): Tape {
    [ByteVector(ssid)]
  }

  function WriteNetwork(n: PnoNetwork): Tape {
    [Int32Item(if n.isHidden then 1 else 0), ByteVector(n.ssid)]
  }

  function ReadNetwork(t: Tape): Option<(PnoNetwork, Tape)> {
    match ReadInt32(t)
    case None => None
    case Some((hidden, rest)) =>
      match ReadByteVector(rest)
      case None => None
      case Some((ssid, rest)) => Some((PnoNetwork(hidden != 0, ssid), rest))
  }

  function WriteRadioChain(r: RadioChainInfo): Tape {
    [Int32Item(r.chainId), Int32Item(r.level)]
  }

  function ReadRadioChain(t: Tape): Option<(RadioChainInfo, Tape)> {
    match ReadInt32(t)
    case None => None
    case Some((chainId, rest)) =>
      match ReadInt32(rest)
      case None => None
      case Some((level, rest)) => Some((RadioChainInfo(chainId, level), rest))
  }

  lemma {:induction false} RadioChainRestores(r: RadioChainInfo)
    requires IsInt32(r.chainId) && IsInt32(r.level)
    ensures Restores(WriteRadioChain, ReadRadioChain, r)
  {
    forall rest: Tape
      ensures ReadRadioChain(WriteRadioChain(r) + rest) == Some((r, rest))
    {
      Int32RoundTrip(r.level, rest);
      Int32RoundTrip(r.chainId, [Int32Item(r.level)] + rest);
      assert WriteRadioChain(r) + rest == [Int32Item(r.chainId)] + ([Int32Item(r.level)] + rest);
    }
  }

  // ---- the parcel ----

  /** What is still to be read. Writers append at the end. */
  class Parcel {
    var tape: Tape

    constructor (tape: Tape)
      ensures this.tape == tape
    {
      this.tape := tape;
    }

    method Write(items: Tape)
      modifies this
      ensures tape == old(tape) + items
    {
      tape := tape + items;
    }

    method ReadItem<T>(read: Reader<T>) returns (value: Option<T>)
      modifies this
      ensures read(old(tape)) == if value.None? then None else Some((value.value, tape))
      ensures value.None? ==> tape == old(tape)
    {
      match read(tape)
      case None => return None;
      case Some((x, rest)) =>
        tape := rest;
        return Some(x);
    }

    method WriteObjects<T>(write: Writer<T>, list: seq<T>)
      modifies this
      ensures tape == old(tape) + WriteList(write, list)
    {
      Write([Int32Item(|list|)]);
      assert WriteEach(write, list[..0]) == [];
      for i := 0 to |list|
        invariant tape == old(tape) + [Int32Item(|list|)] + WriteEach(write, list[..i])
      {
        WriteEachStep(write, list, i);
        Write([Int32Item(1)]);
        Write(write(list[i]));
      }
      assert list[..|list|] == list;
    }

    /** One object of a list, after its leading one. */
    method ReadObject<T>(read: Reader<T>) returns (value: Option<T>)
      modifies this
      ensures ReadOne(read, old(tape)) == if value.None? then None else Some((value.value, tape))
    {
      var leading := ReadItem(ReadInt32);
      if leading != Some(1) {
        return None;
      }
      value := ReadItem(read);
    }

    method ReadObjects<T>(read: Reader<T>, target: seq<T>) returns (ok: bool, list: seq<T>)
      modifies this
      ensures ok == ReadList(read, target, old(tape)).0 && list == ReadList(read, target, old(tape)).1
      ensures ok ==> tape == ReadList(read, target, old(tape)).2
    {
      var num := ReadItem(ReadInt32);
      if num.None? {
        return false, target;
      }
      ghost var start := tape;
      list := target;
      var i := 0;
      while i < num.value
        invariant 0 <= i <= Count(num.value)
        invariant ReadEach(read, Count(num.value), target, start) == ReadEach(read, Count(num.value) - i, list, tape)
      {
        var x := ReadObject(read);
        if x.None? {
          return false, list;
        }
        list := list + [x.value];
        i := i + 1;
      }
      ok := true;
    }
  }

  lemma {:induction false} WriteEachStep<T>(write: Writer<T>, list: seq<T>, i: nat)
    requires i < |list|
    ensures WriteEach(write, list[..i + 1]) == WriteEach(write, list[..i]) + [Int32Item(1)] + write(list[i])
  {
    if i == 0 {
      assert list[..1] == [list[0]] && WriteEach(write, [list[0]][1..]) == [];
    } else {
      WriteEachStep(write, list[1..], i - 1);
      assert list[..i + 1][1..] == list[1..][..i] && list[..i][1..] == list[1..][..i - 1];
      var first := [Int32Item(1)] + write(list[0]);
      Regroup(first, WriteEach(write, list[1..][..i - 1]), [Int32Item(1)] + write(list[i]));
      assert WriteEach(write, list[1..][..i - 1]) + [Int32Item(1)] + write(list[i])
          == WriteEach(write, list[1..][..i - 1]) + ([Int32Item(1)] + write(list[i]));
    }
  }

  lemma {:induction false} ThreeParts<T>(a: seq<T>, b: seq<T>, c: seq<T>, d: seq<T>)
    ensures ((a + b) + c) + d == a + (b + c + d)
  {
  }

  predicate FitsCount<T>(list: seq<T>) {
    |list| < 0x8000_0000
  }

  // ---- one-shot scan settings ----

  datatype SingleScan = SingleScan(scanType: int, channels: seq<int>, hidden: seq<Ssid>) {
    predicate IsValidScanType() {
      scanType == SCAN_TYPE_LOW_SPAN || scanType == SCAN_TYPE_LOW_POWER || scanType == SCAN_TYPE_HIGH_ACCURACY
    }
  }

  function WriteSingle(s: SingleScan): Tape {
    [Int32Item(s.scanType)] + WriteList(WriteChannel, s.channels) + WriteList(WriteHidden, s.hidden)
  }

  function ReadSingle(before: SingleScan, t: Tape): (bool, SingleScan, Tape) {
    match ReadInt32(t)
    case None => (false, before, t)
    case Some((scanType, rest)) =>
      var typed := before.(scanType := scanType);
      if !typed.IsValidScanType() then (false, typed, rest)
      else
        var (ok, channels, rest) := ReadList(ReadInt32, before.channels, rest);
        var filled := typed.(channels := channels);
        if !ok then (false, filled, rest)
        else
          var (ok, hidden, rest) := ReadList(ReadByteVector, before.hidden, rest);
          (ok, filled.(hidden := hidden), rest)
  }

  class SingleScanSettings {
    var value: SingleScan

    constructor (value: SingleScan)
      ensures this.value == value
    {
      this.value := value;
    }

    /** Writes nothing for a scan type that is not one of the three. */
    method WriteToParcel(parcel: Parcel) returns (ok: bool)
      modifies parcel
      ensures ok == value.IsValidScanType()
      ensures parcel.tape == old(parcel.tape) + if ok then WriteSingle(value) else []
    {
      if !value.IsValidScanType() {
        return false;
      }
      parcel.Write([Int32Item(value.scanType)]);
      parcel.WriteObjects(WriteChannel, value.channels);
      parcel.WriteObjects(WriteHidden, value.hidden);
      ThreeParts(old(parcel.tape), [Int32Item(value.scanType)], WriteList(WriteChannel, value.channels),
                 WriteList(WriteHidden, value.hidden));
      return true;
    }

    /** The fields read before a failure keep what was read. */
    method ReadFromParcel(parcel: Parcel) returns (ok: bool)
      modifies this, parcel
      ensures ok == ReadSingle(old(value), old(parcel.tape)).0 && value == ReadSingle(old(value), old(parcel.tape)).1
      ensures ok ==> parcel.tape == ReadSingle(old(value), old(parcel.tape)).2
    {
      var scanType := parcel.ReadItem(ReadInt32);
      if scanType.None? {
        return false;
      }
      value := value.(scanType := scanType.value);
      if !value.IsValidScanType() {
        return false;
      }
      var channels, hidden;
      ok, channels := parcel.ReadObjects(ReadInt32, value.channels);
      value := value.(channels := channels);
      if !ok {
        return false;
      }
      ok, hidden := parcel.ReadObjects(ReadByteVector, value.hidden);
      value := value.(hidden := hidden);
    }
  }

  predicate SingleInRange(s: SingleScan) {
    s.IsValidScanType() && forall i :: 0 <= i < |s.channels| ==> IsInt32(s.channels[i])
  }

  lemma {:induction false} ChannelsRestore(s: SingleScan)
    requires SingleInRange(s)
    ensures AllRestore(WriteChannel, ReadInt32, s.channels)
    ensures AllRestore(WriteHidden, ReadByteVector, s.hidden)
  {
    forall i | 0 <= i < |s.channels|
      ensures Restores(WriteChannel, ReadInt32, s.channels[i])
    {
    }
    forall i | 0 <= i < |s.hidden|
      ensures Restores(WriteHidden, ReadByteVector, s.hidden[i])
    {
    }
  }

  /**
   Reading what was written restores the scan type, appends both lists to those of the reading object, and
   leaves exactly what followed.
   */
  lemma {:induction false} SingleReadsBack(s: SingleScan, before: SingleScan, suffix: Tape)
    requires SingleInRange(s) && FitsCount(s.channels) && FitsCount(s.hidden)
    ensures ReadSingle(before, WriteSingle(s) + suffix)
         == (true, SingleScan(s.scanType, before.channels + s.channels, before.hidden + s.hidden), suffix)
  {
    var afterChannels := WriteList(WriteHidden, s.hidden) + suffix;
    var afterType := WriteList(WriteChannel, s.channels) + afterChannels;
    assert WriteSingle(s) + suffix == [Int32Item(s.scanType)] + afterType;
    Int32RoundTrip(s.scanType, afterType);
    ChannelsRestore(s);
    ListRoundTrip(WriteChannel, ReadInt32, s.channels, before.channels, afterChannels);
    ListRoundTrip(WriteHidden, ReadByteVector, s.hidden, before.hidden, suffix);
  }

  /** A fresh object gets every field back, and nothing of what follows is consumed, exactly when both sizes fit. */
  lemma {:induction false} SingleRoundTrip(s: SingleScan, fresh_: SingleScan, suffix: Tape)
    requires SingleInRange(s) && fresh_.channels == [] && fresh_.hidden == []
    ensures ReadSingle(fresh_, WriteSingle(s) + suffix) == (true, s, suffix) <==> FitsCount(s.channels) && FitsCount(s.hidden)
  {
    var afterChannels := WriteList(WriteHidden, s.hidden) + suffix;
    var afterType := WriteList(WriteChannel, s.channels) + afterChannels;
    if FitsCount(s.channels) && FitsCount(s.hidden) {
      SingleReadsBack(s, fresh_, suffix);
      assert [] + s.channels == s.channels && [] + s.hidden == s.hidden;
    } else {
      assert WriteSingle(s) + suffix == [Int32Item(s.scanType)] + afterType;
      Int32RoundTrip(s.scanType, afterType);
      ChannelsRestore(s);
      ListRoundTrip(WriteChannel, ReadInt32, s.channels, [], afterChannels);
      ListRoundTrip(WriteHidden, ReadByteVector, s.hidden, [], suffix);
    }
  }

  /** An object that already holds a list keeps it in front, so reading restores the value only into empty lists. */
  lemma {:induction false} SingleNeedsFreshObject(s: SingleScan, before: SingleScan, suffix: Tape)
    requires SingleInRange(s) && FitsCount(s.channels) && FitsCount(s.hidden)
    ensures ReadSingle(before, WriteSingle(s) + suffix).1 == s <==> before.channels == [] && before.hidden == []
  {
    SingleReadsBack(s, before, suffix);
  }

  // ---- PNO settings ----

  function WritePno(s: PnoSettings): Tape {
    [Int32Item(s.intervalMs), Int32Item(s.min2gRssi), Int32Item(s.min5gRssi)] + WriteList(WriteNetwork, s.pnoNetworks)
  }

  function ReadPno(before: PnoSettings, t: Tape): (bool, PnoSettings, Tape) {
    match ReadInt32(t)
    case None => (false, before, t)
    case Some((interval, rest)) =>
      var s := before.(intervalMs := interval);
      match ReadInt32(rest)
      case None => (false, s, rest)
      case Some((rssi2g, rest)) =>
        var s := s.(min2gRssi := rssi2g);
        match ReadInt32(rest)
        case None => (false, s, rest)
        case Some((rssi5g, rest)) =>
          var (ok, networks, rest) := ReadList(ReadNetwork, before.pnoNetworks, rest);
          (ok, s.(min5gRssi := rssi5g, pnoNetworks := networks), rest)
  }

  class PnoParcelable {
    var value: PnoSettings

    constructor (value: PnoSettings)
      ensures this.value == value
    {
      this.value := value;
    }

    method WriteToParcel(parcel: Parcel)
      modifies parcel
      ensures parcel.tape == old(parcel.tape) + WritePno(value)
    {
      parcel.Write([Int32Item(value.intervalMs)]);
      parcel.Write([Int32Item(value.min2gRssi)]);
      parcel.Write([Int32Item(value.min5gRssi)]);
      parcel.WriteObjects(WriteNetwork, value.pnoNetworks);
    }

    method ReadFromParcel(parcel: Parcel) returns (ok: bool)
      modifies this, parcel
      ensures ok == ReadPno(old(value), old(parcel.tape)).0 && value == ReadPno(old(value), old(parcel.tape)).1
      ensures ok ==> parcel.tape == ReadPno(old(value), old(parcel.tape)).2
    {
      var interval := parcel.ReadItem(ReadInt32);
      if interval.None? {
        return false;
      }
      value := value.(intervalMs := interval.value);
      var rssi2g := parcel.ReadItem(ReadInt32);
      if rssi2g.None? {
        return false;
      }
      value := value.(min2gRssi := rssi2g.value);
      var rssi5g := parcel.ReadItem(ReadInt32);
      if rssi5g.None? {
        return false;
      }
      value := value.(min5gRssi := rssi5g.value);
      var networks;
      ok, networks := parcel.ReadObjects(ReadNetwork, value.pnoNetworks);
      value := value.(pnoNetworks := networks);
    }
  }

  predicate PnoInRange(s: PnoSettings) {
    IsInt32(s.intervalMs) && IsInt32(s.min2gRssi) && IsInt32(s.min5gRssi)
  }

  lemma {:induction false} PnoHead(s: PnoSettings, before: PnoSettings, rest: Tape)
    requires PnoInRange(s)
    ensures var (ok, networks, left) := ReadList(ReadNetwork, before.pnoNetworks, rest);
            ReadPno(before, [Int32Item(s.intervalMs), Int32Item(s.min2gRssi), Int32Item(s.min5gRssi)] + rest)
            == (ok, s.(pnoNetworks := networks), left)
  {
    var last := [Int32Item(s.min5gRssi)] + rest;
    var middle := [Int32Item(s.min2gRssi)] + last;
    assert [Int32Item(s.intervalMs), Int32Item(s.min2gRssi), Int32Item(s.min5gRssi)] + rest == [Int32Item(s.intervalMs)] + middle;
    Int32RoundTrip(s.intervalMs, middle);
    Int32RoundTrip(s.min2gRssi, last);
    Int32RoundTrip(s.min5gRssi, rest);
  }

  lemma {:induction false} NetworksRestore(networks: seq<PnoNetwork>)
    ensures AllRestore(WriteNetwork, ReadNetwork, networks)
  {
    forall i | 0 <= i < |networks|
      ensures Restores(WriteNetwork, ReadNetwork, networks[i])
    {
    }
  }

  /** Every field comes back and nothing of what follows is consumed, exactly when the number of networks fits. */
  lemma {:induction false} PnoRoundTrip(s: PnoSettings, fresh_: PnoSettings, suffix: Tape)
    requires PnoInRange(s) && fresh_.pnoNetworks == []
    ensures ReadPno(fresh_, WritePno(s) + suffix) == (true, s, suffix) <==> FitsCount(s.pnoNetworks)
  {
    var rest := WriteList(WriteNetwork, s.pnoNetworks) + suffix;
    assert WritePno(s) + suffix == [Int32Item(s.intervalMs), Int32Item(s.min2gRssi), Int32Item(s.min5gRssi)] + rest;
    PnoHead(s, fresh_, rest);
    NetworksRestore(s.pnoNetworks);
    ListRoundTrip(WriteNetwork, ReadNetwork, s.pnoNetworks, [], suffix);
    assert [] + s.pnoNetworks == s.pnoNetworks;
  }

  // ---- scan results ----

  datatype ScanResult = ScanResult(ssid: Buffer, bssid: Buffer, infoElement: Buffer, frequency: nat, signalMbm: int,
                                   tsf: nat, capability: nat, associated: bool, radioChains: seq<RadioChainInfo>)

  function WriteFixed(r: ScanResult): Tape {
    [ByteVector(r.ssid), ByteVector(r.bssid), ByteVector(r.infoElement), Word(r.frequency), Int32Item(r.signalMbm),
     DoubleWord(r.tsf), Word(r.capability), Int32Item(if r.associated then 1 else 0)]
  }

  function WriteResult(r: ScanResult): Tape {
    WriteFixed(r) + WriteList(WriteRadioChain, r.radioChains)
  }

  /** The SSID, the BSSID and the information elements. */
  function ReadNames(before: ScanResult, t: Tape): (bool, ScanResult, Tape) {
    match ReadByteVector(t)
    case None => (false, before, t)
    case Some((ssid, rest)) =>
      var r := before.(ssid := ssid);
      match ReadByteVector(rest)
      case None => (false, r, rest)
      case Some((bssid, rest)) =>
        var r := r.(bssid := bssid);
        match ReadByteVector(rest)
        case None => (false, r, rest)
        case Some((ie, rest)) => (true, r.(infoElement := ie), rest)
  }

  /** The frequency, the signal and the timestamp. */
  function ReadSignal(before: ScanResult, t: Tape): (bool, ScanResult, Tape) {
    match ReadUint32(t)
    case None => (false, before, t)
    case Some((frequency, rest)) =>
      var r := before.(frequency := frequency);
      match ReadInt32(rest)
      case None => (false, r, rest)
      case Some((signal, rest)) =>
        var r := r.(signalMbm := signal);
        match ReadUint64(rest)
        case None => (false, r, rest)
        case Some((tsf, rest)) => (true, r.(tsf := tsf), rest)
  }

  /** The capability, cut to 16 bits, and the association: a missing word reads as zero, without an error. */
  function ReadFlags(before: ScanResult, t: Tape): (ScanResult, Tape) {
    var (capability, rest) := match ReadUint32(t) case None => (0, t) case Some(read) => read;
    var (associated, rest) := match ReadInt32(rest) case None => (0, rest) case Some(read) => read;
    (before.(capability := capability % U16_SIZE, associated := associated != 0), rest)
  }

  function ReadResult(before: ScanResult, t: Tape): (bool, ScanResult, Tape) {
    var (ok, r, rest) := ReadNames(before, t);
    if !ok then (false, r, rest)
    else
      var (ok, r, rest) := ReadSignal(r, rest);
      if !ok then (false, r, rest)
      else
        var (r, rest) := ReadFlags(r, rest);
        var (ok, radioChains, rest) := ReadList(ReadRadioChain, r.radioChains, rest);
        (ok, r.(radioChains := radioChains), rest)
  }

  class NativeScanResult {
    var value: ScanResult

    constructor (value: ScanResult)
      ensures this.value == value
    {
      this.value := value;
    }

    method WriteToParcel(parcel: Parcel)
      modifies parcel
      ensures parcel.tape == old(parcel.tape) + WriteResult(value)
    {
      parcel.Write([ByteVector(value.ssid)]);
      parcel.Write([ByteVector(value.bssid)]);
      parcel.Write([ByteVector(value.infoElement)]);
      parcel.Write([Word(value.frequency)]);
      parcel.Write([Int32Item(value.signalMbm)]);
      parcel.Write([DoubleWord(value.tsf)]);
      parcel.Write([Word(value.capability)]);
      parcel.Write([Int32Item(if value.associated then 1 else 0)]);
      assert parcel.tape == old(parcel.tape) + WriteFixed(value);
      parcel.WriteObjects(WriteRadioChain, value.radioChains);
    }

    method ReadNamesFrom(parcel: Parcel) returns (ok: bool)
      modifies this, parcel
      ensures ok == ReadNames(old(value), old(parcel.tape)).0 && value == ReadNames(old(value), old(parcel.tape)).1
      ensures ok ==> parcel.tape == ReadNames(old(value), old(parcel.tape)).2
    {
      var ssid := parcel.ReadItem(ReadByteVector);
      if ssid.None? {
        return false;
      }
      value := value.(ssid := ssid.value);
      var bssid := parcel.ReadItem(ReadByteVector);
      if bssid.None? {
        return false;
      }
      value := value.(bssid := bssid.value);
      var ie := parcel.ReadItem(ReadByteVector);
      if ie.None? {
        return false;
      }
      value := value.(infoElement := ie.value);
      return true;
    }

    method ReadSignalFrom(parcel: Parcel) returns (ok: bool)
      modifies this, parcel
      ensures ok == ReadSignal(old(value), old(parcel.tape)).0 && value == ReadSignal(old(value), old(parcel.tape)).1
      ensures ok ==> parcel.tape == ReadSignal(old(value), old(parcel.tape)).2
    {
      var frequency := parcel.ReadItem(ReadUint32);
      if frequency.None? {
        return false;
      }
      value := value.(frequency := frequency.value);
      var signal := parcel.ReadItem(ReadInt32);
      if signal.None? {
        return false;
      }
      value := value.(signalMbm := signal.value);
      var tsf := parcel.ReadItem(ReadUint64);
      if tsf.None? {
        return false;
      }
      value := value.(tsf := tsf.value);
      return true;
    }

    method ReadFlagsFrom(parcel: Parcel)
      modifies this, parcel
      ensures (value, parcel.tape) == ReadFlags(old(value), old(parcel.tape))
    {
      var capability: Option<nat> := parcel.ReadItem(ReadUint32);
      value := value.(capability := capability.GetOr(0) % U16_SIZE);
      var associated := parcel.ReadItem(ReadInt32);
      value := value.(associated := associated.GetOr(0) != 0);
    }

    method ReadFromParcel(parcel: Parcel) returns (ok: bool)
      modifies this, parcel
      ensures ok == ReadResult(old(value), old(parcel.tape)).0 && value == ReadResult(old(value), old(parcel.tape)).1
      ensures ok ==> parcel.tape == ReadResult(old(value), old(parcel.tape)).2
    {
      ok := ReadNamesFrom(parcel);
      if !ok {
        return false;
      }
      ok := ReadSignalFrom(parcel);
      if !ok {
        return false;
      }
      ReadFlagsFrom(parcel);
      var radioChains;
      ok, radioChains := parcel.ReadObjects(ReadRadioChain, value.radioChains);
      value := value.(radioChains := radioChains);
    }
  }

  predicate ResultInRange(r: ScanResult) {
    && r.frequency < U32_SIZE && IsInt32(r.signalMbm) && r.capability < U16_SIZE
    && forall i :: 0 <= i < |r.radioChains| ==> IsInt32(r.radioChains[i].chainId) && IsInt32(r.radioChains[i].level)
  }

  lemma {:induction false} NamesReadBack(r: ScanResult, before: ScanResult, rest: Tape)
    ensures ReadNames(before, [ByteVector(r.ssid), ByteVector(r.bssid), ByteVector(r.infoElement)] + rest)
         == (true, before.(ssid := r.ssid, bssid := r.bssid, infoElement := r.infoElement), rest)
  {
    var t := [ByteVector(r.ssid), ByteVector(r.bssid), ByteVector(r.infoElement)] + rest;
    assert t[1..][1..][1..] == rest;
  }

  lemma {:induction false} SignalReadsBack(r: ScanResult, before: ScanResult, rest: Tape)
    requires ResultInRange(r)
    ensures ReadSignal(before, [Word(r.frequency), Int32Item(r.signalMbm), DoubleWord(r.tsf)] + rest)
         == (true, before.(frequency := r.frequency, signalMbm := r.signalMbm, tsf := r.tsf), rest)
  {
    var t := [Word(r.frequency), Int32Item(r.signalMbm), DoubleWord(r.tsf)] + rest;
    assert t[1..] == [Int32Item(r.signalMbm)] + ([DoubleWord(r.tsf)] + rest);
    Int32RoundTrip(r.signalMbm, [DoubleWord(r.tsf)] + rest);
    assert ([DoubleWord(r.tsf)] + rest)[1..] == rest;
  }

  lemma {:induction false} FlagsReadBack(r: ScanResult, before: ScanResult, rest: Tape)
    requires ResultInRange(r)
    ensures ReadFlags(before, [Word(r.capability), Int32Item(if r.associated then 1 else 0)] + rest)
         == (before.(capability := r.capability, associated := r.associated), rest)
  {
    var flag := if r.associated then 1 else 0;
    var t := [Word(r.capability), Int32Item(flag)] + rest;
    assert t[1..] == [Int32Item(flag)] + rest;
    Int32RoundTrip(flag, rest);
  }

  lemma {:induction false} FixedReadsBack(r: ScanResult, before: ScanResult, rest: Tape)
    requires ResultInRange(r)
    ensures var (ok, radioChains, left) := ReadList(ReadRadioChain, before.radioChains, rest);
            ReadResult(before, WriteFixed(r) + rest) == (ok, r.(radioChains := radioChains), left)
  {
    var flags := [Word(r.capability), Int32Item(if r.associated then 1 else 0)] + rest;
    var signal := [Word(r.frequency), Int32Item(r.signalMbm), DoubleWord(r.tsf)] + flags;
    assert WriteFixed(r) + rest == [ByteVector(r.ssid), ByteVector(r.bssid), ByteVector(r.infoElement)] + signal;
    NamesReadBack(r, before, signal);
    var named := before.(ssid := r.ssid, bssid := r.bssid, infoElement := r.infoElement);
    SignalReadsBack(r, named, flags);
    FlagsReadBack(r, named.(frequency := r.frequency, signalMbm := r.signalMbm, tsf := r.tsf), rest);
  }

  /** Every field comes back and nothing of what follows is consumed, exactly when the number of radio chains fits. */
  lemma {:induction false} ResultRoundTrip(r: ScanResult, fresh_: ScanResult, suffix: Tape)
    requires ResultInRange(r) && fresh_.radioChains == []
    ensures ReadResult(fresh_, WriteResult(r) + suffix) == (true, r, suffix) <==> FitsCount(r.radioChains)
  {
    var rest := WriteList(WriteRadioChain, r.radioChains) + suffix;
    Regroup(WriteFixed(r), WriteList(WriteRadioChain, r.radioChains), suffix);
    FixedReadsBack(r, fresh_, rest);
    forall i | 0 <= i < |r.radioChains|
      ensures Restores(WriteRadioChain, ReadRadioChain, r.radioChains[i])
    {
      RadioChainRestores(r.radioChains[i]);
    }
    ListRoundTrip(WriteRadioChain, ReadRadioChain, r.radioChains, [], suffix);
    assert [] + r.radioChains == r.radioChains;
  }
}
