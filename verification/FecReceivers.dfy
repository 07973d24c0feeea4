/**
 The receiver side of row FEC (fec.rs): recent data and parities by sequence number, recovery of a group's one
 missing member, eviction of old history. The specification is written over any key type, so that the class, which
 keys by 31-bit sequence numbers, and the model, which keys by packet indices, share it.
 */
module FecReceivers {
  import opened Options
  import opened SeqNumbers
  import opened Fec

  const RCV_HISTORY_GROUPS: nat := 8

  /** Group sizes are floored at two: a group of one has no redundancy. */
  type GroupSize = n: nat | 2 <= n witness 2

  datatype Store<K> = Store(data: map<K, FecData>, parities: map<K, FecParity>)

  datatype Recovery<K> = Recovery(key: K, packet: FecData)

  /** The members held, in group order. */
  function Present<K>(data: map<K, FecData>, keys: seq<K>): seq<FecData> {
    if keys == [] then []
    else
      var last := keys[|keys| - 1];
      Present(data, keys[..|keys| - 1]) + (if last in data then [data[last]] else [])
  }

  /** The members not held, in group order. */
  function Absent<K>(data: map<K, FecData>, keys: seq<K>): seq<K> {
    if keys == [] then []
    else
      var last := keys[|keys| - 1];
      Absent(data, keys[..|keys| - 1]) + (if last in data then [] else [last])
  }

  /** The recovery a group allows: its parity is held and exactly one member is missing. */
  function GroupRecovery<K>(s: Store<K>, keys: seq<K>, size: nat): Option<Recovery<K>> {
    if keys == [] || keys[0] !in s.parities || |Absent(s.data, keys)| != 1 then None
    else
      match RowRecovered(|keys|, size, s.parities[keys[0]], Present(s.data, keys))
      case None => None
      case Some(d) => Some(Recovery(Absent(s.data, keys)[0], d))
  }

  /** The parity is consumed and the rebuilt packet kept as a member. */
  function Rebuilt<K>(s: Store<K>, keys: seq<K>, r: Option<Recovery<K>>): Store<K> {
    if r.None? || keys == [] then s
    else Store(s.data[r.value.key := r.value.packet], s.parities - {keys[0]})
  }

  function TryGroup<K>(s: Store<K>, keys: seq<K>, size: nat): Store<K> {
    Rebuilt(s, keys, GroupRecovery(s, keys, size))
  }

  function Listed<K>(r: Option<Recovery<K>>): seq<Recovery<K>> {
    if r.None? then [] else [r.value]
  }

  /** Each group in turn. */
  function TryAll<K>(s: Store<K>, groups: seq<seq<K>>, size: nat): Store<K> {
    if groups == [] then s else TryGroup(TryAll(s, groups[..|groups| - 1], size), groups[|groups| - 1], size)
  }

  function RecoveredAll<K>(s: Store<K>, groups: seq<seq<K>>, size: nat): seq<Recovery<K>> {
    if groups == [] then []
    else
      var front := groups[..|groups| - 1];
      RecoveredAll(s, front, size) + Listed(GroupRecovery(TryAll(s, front, size), groups[|groups| - 1], size))
  }

  ghost function Evicted<K>(s: Store<K>, gone: iset<K>): Store<K> {
    Store(map k | k in s.data && k !in gone :: s.data[k], map k | k in s.parities && k !in gone :: s.parities[k])
  }

  function WithData<K>(s: Store<K>, key: K, d: FecData): Store<K> {
    s.(data := s.data[key := d])
  }

  function WithParity<K>(s: Store<K>, key: K, p: FecParity): Store<K> {
    s.(parities := s.parities[key := p])
  }

  ghost function AfterData<K>(s: Store<K>, key: K, d: FecData, groups: seq<seq<K>>, size: nat, gone: iset<K>): Store<K> {
    Evicted(TryAll(WithData(s, key, d), groups, size), gone)
  }

  ghost function AfterParity<K>(s: Store<K>, base: K, p: FecParity, keys: seq<K>, size: nat, gone: iset<K>): Store<K> {
    Evicted(TryGroup(WithParity(s, base, p), keys, size), gone)
  }

  function RecoveredByParity<K>(s: Store<K>, base: K, p: FecParity, keys: seq<K>, size: nat): seq<Recovery<K>> {
    Listed(GroupRecovery(WithParity(s, base, p), keys, size))
  }

  // ---- The keys of a group ----

  function WireKeys(base: int, n: nat): seq<SeqNumber> {
    seq<SeqNumber>(n, i requires 0 <= i < n => Wire(base + i))
  }

  /** The number some steps back. */
  function WireBack(at: int, off: nat): SeqNumber {
    Wire(at - off)
  }

  /** The groups of `n` that can contain a number, nearest base first. */
  function WireGroups(at: int, n: nat): seq<seq<SeqNumber>> {
    seq(n, off requires 0 <= off < n => WireKeys(WireBack(at, off), n))
  }

  ghost function WireStale(newest: SeqNumber, window: int): iset<SeqNumber> {
    iset k: SeqNumber | OffsetFrom(newest, k) >= window
  }

  /** The eviction window, limited to a 32-bit signed integer. */
  function Window(groupSize: nat): int {
    if groupSize * RCV_HISTORY_GROUPS < 0x8000_0000 then groupSize * RCV_HISTORY_GROUPS else 0x7FFF_FFFF
  }

  class FecReceiver {
    const groupSize: GroupSize
    const size: nat
    var data: map<SeqNumber, FecData>
    var parities: map<SeqNumber, FecParity>

    function View(): Store<SeqNumber>
      reads this
    {
      Store(data, parities)
    }

    constructor (groupSize: nat, size: nat)
      ensures this.groupSize == (if groupSize < 2 then 2 else groupSize) && this.size == size
      ensures View() == Store(map[], map[])
    {
      this.groupSize := if groupSize < 2 then 2 else groupSize;
      this.size := size;
      data, parities := map[], map[];
    }

    method ObserveData(number: SeqNumber, d: FecData) returns (recovered: seq<Recovery<SeqNumber>>)
      modifies this
      ensures recovered == RecoveredAll(WithData(old(View()), number, d), WireGroups(number, groupSize), size)
      ensures View() == AfterData(old(View()), number, d, WireGroups(number, groupSize), size,
                                  WireStale(number, Window(groupSize)))
    {
      data := data[number := d];
      recovered := TryGroups(number);
      Evict(number);
    }

    /** Retries every group that can contain a number. */
    method TryGroups(number: SeqNumber) returns (recovered: seq<Recovery<SeqNumber>>)
      modifies this
      ensures recovered == RecoveredAll(old(View()), WireGroups(number, groupSize), size)
      ensures View() == TryAll(old(View()), WireGroups(number, groupSize), size)
    {
      recovered := [];
      ghost var s := View();
      ghost var tried := [];
      BackZero(number);
      var base := number;
      for off := 0 to groupSize
        invariant base == WireBack(number, off)
        invariant tried == WireGroups(number, groupSize)[..off]
        invariant recovered == RecoveredAll(s, tried, size)
        invariant View() == TryAll(s, tried, size)
      {
        TryAllNext(s, tried, WireKeys(base, groupSize), size);
        tried := tried + [WireKeys(base, groupSize)];
        var more := TryGroupAt(base);
        recovered := recovered + more;
        StepBack(number, off, groupSize);
        base := Prev(base);
      }
      assert tried == WireGroups(number, groupSize);
    }

    /** The base of the group a parity ends. */
    method GroupBase(number: SeqNumber) returns (base: SeqNumber)
      ensures base == WireBack(number, groupSize - 1)
    {
      base := number;
      for off := 0 to groupSize - 1
        invariant base == WireBack(number, off)
      {
        PrevExact(number - off);
        base := Prev(base);
      }
    }

    method ObserveParity(number: SeqNumber, payload: seq<bv8>, timestampClip: bv32)
      returns (recovered: seq<Recovery<SeqNumber>>)
      modifies this
      ensures var decoded := DecodeParity(payload, timestampClip);
              if decoded.None? || decoded.value.0 != ROW_INDEX then recovered == [] && View() == old(View())
              else
                var base := WireBack(number, groupSize - 1);
                && recovered == RecoveredByParity(old(View()), base, decoded.value.1, WireKeys(base, groupSize), size)
                && View() == AfterParity(old(View()), base, decoded.value.1, WireKeys(base, groupSize), size,
                                         WireStale(number, Window(groupSize)))
    {
      var decoded := DecodeParity(payload, timestampClip);
      if decoded.None? || decoded.value.0 != ROW_INDEX {
        return [];
      }
      var base := GroupBase(number);
      recovered := StoreParity(base, decoded.value.1);
      Evict(number);
    }

    method StoreParity(base: SeqNumber, p: FecParity) returns (recovered: seq<Recovery<SeqNumber>>)
      modifies this
      ensures recovered == RecoveredByParity(old(View()), base, p, WireKeys(base, groupSize), size)
      ensures View() == TryGroup(WithParity(old(View()), base, p), WireKeys(base, groupSize), size)
    {
      parities := parities[base := p];
      recovered := TryGroupAt(base);
    }

    method TryGroupAt(base: SeqNumber) returns (recovered: seq<Recovery<SeqNumber>>)
      modifies this
      ensures recovered == Listed(GroupRecovery(old(View()), WireKeys(base, groupSize), size))
      ensures View() == TryGroup(old(View()), WireKeys(base, groupSize), size)
    {
      FirstKey(base, groupSize);
      if base !in parities {
        return [];
      }
      var present, missing := Collect(base);
      if |missing| != 1 {
        return [];
      }
      var r := RecoverRow(groupSize, size, parities[base], present);
      if r.None? {
        return [];
      }
      parities := parities - {base};
      data := data[missing[0] := r.value];
      recovered := [Recovery(missing[0], r.value)];
    }

    /** Walks the group: the members held and the ones that are not. */
    method Collect(base: SeqNumber) returns (present: seq<FecData>, missing: seq<SeqNumber>)
      ensures present == Present(data, WireKeys(base, groupSize))
      ensures missing == Absent(data, WireKeys(base, groupSize))
    {
      present, missing := [], [];
      ghost var keys := WireKeys(base, groupSize);
      var key := base;
      for i := 0 to groupSize
        invariant key == Wire(base + i)
        invariant present == Present(data, keys[..i]) && missing == Absent(data, keys[..i])
      {
        assert keys[..i + 1][..i] == keys[..i];
        if key in data {
          present := present + [data[key]];
        } else {
          missing := missing + [key];
        }
        NextExact(base + i);
        key := Next(key);
      }
      assert keys[..groupSize] == keys;
    }

    method Evict(newest: SeqNumber)
      modifies this
      ensures View() == Evicted(old(View()), WireStale(newest, Window(groupSize)))
    {
      var window := Window(groupSize);
      data := map k | k in data && OffsetFrom(newest, k) < window :: data[k];
      parities := map k | k in parities && OffsetFrom(newest, k) < window :: parities[k];
    }
  }

  lemma TryAllNext<K>(s: Store<K>, groups: seq<seq<K>>, keys: seq<K>, size: nat)
    ensures TryAll(s, groups + [keys], size) == TryGroup(TryAll(s, groups, size), keys, size)
    ensures RecoveredAll(s, groups + [keys], size)
            == RecoveredAll(s, groups, size) + Listed(GroupRecovery(TryAll(s, groups, size), keys, size))
  {
    assert (groups + [keys])[..|groups|] == groups;
  }

  lemma FirstKey(base: SeqNumber, n: nat)
    requires n > 0
    ensures WireKeys(base, n)[0] == base
  {
    assert Wire(base) == base;
  }

  lemma BackZero(number: SeqNumber)
    ensures WireBack(number, 0) == number
  {
  }

  /** One more step back, and the group based there. */
  lemma StepBack(number: SeqNumber, off: nat, n: nat)
    requires off < n
    ensures Prev(WireBack(number, off)) == WireBack(number, off + 1)
    ensures WireGroups(number, n)[..off + 1] == WireGroups(number, n)[..off] + [WireKeys(WireBack(number, off), n)]
  {
    PrevExact(number - off);
  }
}
