/**
 Which item of a parcel holds which field (scanning/single_scan_settings.cpp, scanning/pno_settings.cpp,
 scanning/scan_result.cpp), so that another reader can take the parcel apart. Words are 32 bits, in two's complement.
 */
module ParcelLayout {
  import opened Bytes
  import opened PnoRequest
  import opened Parcelables

  const WORD: nat := 0x1_0000_0000

  /** At `at` stands the number of objects, and behind it each object, of `size` items, with a leading one. */
  ghost predicate ListStands<T(!new)>(t: Tape, at: nat, size: nat, write: Writer<T>, list: seq<T>) {
    && at < |t| && t[at] == Word(|list| % WORD)
    && at + 1 + |list| * (size + 1) <= |t|
    && forall i :: 0 <= i < |list| ==> ObjectStands(t, at + 1 + i * (size + 1), write, list[i])
  }

  ghost predicate ObjectStands<T(!new)>(t: Tape, at: nat, write: Writer<T>, x: T) {
    at + 1 + |write(x)| <= |t| && t[at] == Word(1) && t[at + 1..at + 1 + |write(x)|] == write(x)
  }

  lemma {:induction false} EachStands<T(!new)>(write: Writer<T>, list: seq<T>, size: nat)
    requires forall x :: |write(x)| == size
    ensures |WriteEach(write, list)| == |list| * (size + 1)
    ensures forall i :: 0 <= i < |list| ==> ObjectStands(WriteEach(write, list), i * (size + 1), write, list[i])
  {
    if list != [] {
      var x, others := list[0], list[1..];
      var t, later := WriteEach(write, list), WriteEach(write, others);
      EachStands(write, others, size);
      Times(|others|, size + 1);
      assert t == [Word(1)] + write(x) + later;
      forall i | 0 <= i < |list|
        ensures ObjectStands(t, i * (size + 1), write, list[i])
      {
        if i == 0 {
          assert t[1..1 + size] == write(x);
        } else {
          Times(i - 1, size + 1);
          Shifted([Word(1)] + write(x), later, (i - 1) * (size + 1), write, list[i]);
        }
      }
    }
  }

  lemma {:induction false} Times(k: nat, n: nat)
    ensures (k + 1) * n == n + k * n
  {
  }

  lemma {:induction false} Shifted<T(!new)>(front: Tape, t: Tape, at: nat, write: Writer<T>, x: T)
    requires ObjectStands(t, at, write, x)
    ensures ObjectStands(front + t, |front| + at, write, x)
  {
    var n := |write(x)|;
    assert (front + t)[|front| + at + 1..|front| + at + 1 + n] == t[at + 1..at + 1 + n];
  }

  lemma {:induction false} Placed<T(!new)>(front: Tape, t: Tape, back: Tape, at: nat, write: Writer<T>, x: T, items: Writer<T>)
    requires ObjectStands(t, at, write, x) && write(x) == items(x)
    ensures ObjectStands(front + t + back, |front| + at, items, x)
  {
    Shifted(front, t, at, write, x);
    var n := |write(x)|;
    assert (front + t + back)[|front| + at + 1..|front| + at + 1 + n] == (front + t)[|front| + at + 1..|front| + at + 1 + n];
  }

  /** A written list stands where it was written. */
  lemma {:induction false} WrittenListStands<T(!new)>(front: Tape, write: Writer<T>, list: seq<T>, size: nat, back: Tape, items: Writer<T>)
    requires forall x :: write(x) == items(x) && |items(x)| == size
    ensures |WriteList(write, list)| == 1 + |list| * (size + 1)
    ensures ListStands(front + WriteList(write, list) + back, |front|, size, items, list)
  {
    EachStands(write, list, size);
    var each := WriteEach(write, list);
    var head := front + [Word(|list| % WORD)];
    assert front + WriteList(write, list) + back == head + each + back;
    forall i | 0 <= i < |list|
      ensures ObjectStands(head + each + back, |front| + 1 + i * (size + 1), items, list[i])
    {
      Placed(head, each, back, i * (size + 1), write, list[i], items);
    }
  }

  // ---- the three parcels ----

  /** The type, the frequencies of the channels, and the SSIDs of the hidden networks. */
  ghost predicate IsSingleParcel(t: Tape, s: SingleScan) {
    var hidden := 2 + |s.channels| * 2;
    && |t| == hidden + 1 + |s.hidden| * 2
    && t[0] == Word(s.scanType % WORD)
    && ListStands(t, 1, 1, (c: int) => [Word(c % WORD)], s.channels)
    && ListStands(t, hidden, 1, (ssid: Ssid) => [ByteVector(ssid)], s.hidden)
  }

  lemma {:induction false} SingleLayout(s: SingleScan)
    ensures IsSingleParcel(WriteSingle(s), s)
  {
    var channels, hidden := WriteList(WriteChannel, s.channels), WriteList(WriteHidden, s.hidden);
    WrittenListStands([Word(s.scanType % WORD)], WriteChannel, s.channels, 1, hidden, (c: int) => [Word(c % WORD)]);
    WrittenListStands([Word(s.scanType % WORD)] + channels, WriteHidden, s.hidden, 1, [], (ssid: Ssid) => [ByteVector(ssid)]);
    assert WriteSingle(s) + [] == WriteSingle(s);
  }

  /** The interval, the thresholds for 2.4 GHz and for 5 GHz, and the networks: hidden or not, and the SSID. */
  ghost predicate IsPnoParcel(t: Tape, s: PnoSettings) {
    && |t| == 4 + |s.pnoNetworks| * 3
    && t[0] == Word(s.intervalMs % WORD) && t[1] == Word(s.min2gRssi % WORD) && t[2] == Word(s.min5gRssi % WORD)
    && ListStands(t, 3, 2, (n: PnoNetwork) => [Word(if n.isHidden then 1 else 0), ByteVector(n.ssid)], s.pnoNetworks)
  }

  lemma {:induction false} PnoLayout(s: PnoSettings)
    ensures IsPnoParcel(WritePno(s), s)
  {
    var front := [Word(s.intervalMs % WORD), Word(s.min2gRssi % WORD), Word(s.min5gRssi % WORD)];
    WrittenListStands(front, WriteNetwork, s.pnoNetworks, 2, [],
                      (n: PnoNetwork) => [Word(if n.isHidden then 1 else 0), ByteVector(n.ssid)]);
    assert WritePno(s) + [] == WritePno(s);
  }

  /**
   The SSID, the BSSID, the information elements, the frequency, the signal, the 64-bit timestamp, the capability,
   whether associated, and the radio chains: number and level.
   */
  ghost predicate IsResultParcel(t: Tape, r: ScanResult) {
    && |t| == 9 + |r.radioChains| * 3
    && t[..3] == [ByteVector(r.ssid), ByteVector(r.bssid), ByteVector(r.infoElement)]
    && t[3..6] == [Word(r.frequency), Word(r.signalMbm % WORD), DoubleWord(r.tsf)]
    && t[6..8] == [Word(r.capability), Word(if r.associated then 1 else 0)]
    && ListStands(t, 8, 2, (c: RadioChainInfo) => [Word(c.chainId % WORD), Word(c.level % WORD)], r.radioChains)
  }

  lemma {:induction false} ResultLayout(r: ScanResult)
    ensures IsResultParcel(WriteResult(r), r)
  {
    WrittenListStands(WriteFixed(r), WriteRadioChain, r.radioChains, 2, [],
                      (c: RadioChainInfo) => [Word(c.chainId % WORD), Word(c.level % WORD)]);
    assert WriteResult(r) + [] == WriteResult(r);
    var t := WriteResult(r);
    assert t[..8] == WriteFixed(r);
    assert t[..3] == t[..8][..3] && t[3..6] == t[..8][3..6] && t[6..8] == t[..8][6..8];
  }

  // ---- parcels cut short ----

  /** Without its last items, an object is not read. */
  ghost predicate FailsCut<T(!new)>(write: Writer<T>, read: Reader<T>, x: T) {
    forall k :: 0 <= k < |write(x)| ==> read(write(x)[..k]) == None
  }

  lemma {:induction false} ReadOneCut<T(!new)>(write: Writer<T>, read: Reader<T>, x: T, k: nat)
    requires FailsCut(write, read, x) && k < 1 + |write(x)|
    ensures ReadOne(read, ([Int32Item(1)] + write(x))[..k]) == None
  {
    if k > 0 {
      var t := ([Int32Item(1)] + write(x))[..k];
      assert t == [Int32Item(1)] + write(x)[..k - 1];
      Int32RoundTrip(1, write(x)[..k - 1]);
    }
  }

  lemma {:induction false} CutIn<T>(a: seq<T>, b: seq<T>, k: nat)
    requires k <= |a + b|
    ensures (a + b)[..k] == if k <= |a| then a[..k] else a + b[..k - |a|]
  {
  }

  /** Of a list that is cut short the complete objects are kept, and reading fails. */
  lemma {:induction false} EachCut<T(!new)>(write: Writer<T>, read: Reader<T>, list: seq<T>, target: seq<T>, k: nat)
    requires AllRestore(write, read, list) && forall i :: 0 <= i < |list| ==> FailsCut(write, read, list[i])
    requires k < |WriteEach(write, list)|
    ensures var (ok, kept, _) := ReadEach(read, |list|, target, WriteEach(write, list)[..k]);
            !ok && target <= kept <= target + list
  {
    var x, others := list[0], list[1..];
    var first, later := [Int32Item(1)] + write(x), WriteEach(write, others);
    CutIn(first, later, k);
    if k < |first| {
      ReadOneCut(write, read, x, k);
    } else {
      var j := k - |first|;
      assert first + later[..0] == first;
      ReadOneWritten(write, read, x, later[..j]);
      EachCut(write, read, others, target + [x], j);
      assert target + [x] + others == target + list;
    }
  }

  lemma {:induction false} ListCut<T(!new)>(write: Writer<T>, read: Reader<T>, list: seq<T>, target: seq<T>, k: nat)
    requires AllRestore(write, read, list) && forall i :: 0 <= i < |list| ==> FailsCut(write, read, list[i])
    requires FitsCount(list) && k < |WriteList(write, list)|
    ensures var (ok, kept, _) := ReadList(read, target, WriteList(write, list)[..k]);
            !ok && target <= kept <= target + list
  {
    if k > 0 {
      assert WriteList(write, list)[..k] == [Int32Item(|list|)] + WriteEach(write, list)[..k - 1];
      Int32RoundTrip(|list|, WriteEach(write, list)[..k - 1]);
      EachCut(write, read, list, target, k - 1);
    }
  }

  /** No proper prefix of a parcel of one-shot settings is read successfully. */
  lemma {:induction false} SingleCut(s: SingleScan, before: SingleScan, k: nat)
    requires SingleInRange(s) && FitsCount(s.channels) && FitsCount(s.hidden) && k < |WriteSingle(s)|
    ensures !ReadSingle(before, WriteSingle(s)[..k]).0
  {
    var channels, hidden := WriteList(WriteChannel, s.channels), WriteList(WriteHidden, s.hidden);
    ChannelsRestore(s);
    if k > 0 {
      var rest := (channels + hidden)[..k - 1];
      assert WriteSingle(s)[..k] == [Int32Item(s.scanType)] + rest;
      Int32RoundTrip(s.scanType, rest);
      CutIn(channels, hidden, k - 1);
      if k - 1 < |channels| {
        ListCut(WriteChannel, ReadInt32, s.channels, before.channels, k - 1);
      } else {
        ListRoundTrip(WriteChannel, ReadInt32, s.channels, before.channels, hidden[..k - 1 - |channels|]);
        assert channels + hidden[..0] == channels;
        ListCut(WriteHidden, ReadByteVector, s.hidden, before.hidden, k - 1 - |channels|);
      }
    }
  }

  /** Nor one of a parcel of PNO settings. */
  lemma {:induction false} PnoCut(s: PnoSettings, before: PnoSettings, k: nat)
    requires PnoInRange(s) && FitsCount(s.pnoNetworks) && k < |WritePno(s)|
    ensures !ReadPno(before, WritePno(s)[..k]).0
  {
    var front := [Int32Item(s.intervalMs), Int32Item(s.min2gRssi), Int32Item(s.min5gRssi)];
    var networks := WriteList(WriteNetwork, s.pnoNetworks);
    CutIn(front, networks, k);
    if k < 3 {
      var t := front[..k];
      assert k > 0 ==> t[1..] == front[1..k];
      assert k > 1 ==> t[1..][1..] == front[2..k];
    } else {
      assert front + networks[..0] == front;
      PnoHead(s, before, networks[..k - 3]);
      NetworksRestore(s.pnoNetworks);
      forall i | 0 <= i < |s.pnoNetworks|
        ensures FailsCut(WriteNetwork, ReadNetwork, s.pnoNetworks[i])
      {
      }
      ListCut(WriteNetwork, ReadNetwork, s.pnoNetworks, before.pnoNetworks, k - 3);
    }
  }

  /** Nor one of a parcel of a scan result, although missing flags are no error by themselves. */
  lemma {:induction false} ResultCut(r: ScanResult, before: ScanResult, k: nat)
    requires ResultInRange(r) && FitsCount(r.radioChains) && k < |WriteResult(r)|
    ensures !ReadResult(before, WriteResult(r)[..k]).0
  {
    var chains := WriteList(WriteRadioChain, r.radioChains);
    CutIn(WriteFixed(r), chains, k);
    if k >= 8 {
      assert WriteFixed(r) + chains[..0] == WriteFixed(r);
      FixedReadsBack(r, before, chains[..k - 8]);
      forall i | 0 <= i < |r.radioChains|
        ensures Restores(WriteRadioChain, ReadRadioChain, r.radioChains[i]) && FailsCut(WriteRadioChain, ReadRadioChain, r.radioChains[i])
      {
        RadioChainRestores(r.radioChains[i]);
      }
      ListCut(WriteRadioChain, ReadRadioChain, r.radioChains, before.radioChains, k - 8);
    }
  }
}
