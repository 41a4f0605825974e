/** The cumulative list of access points: a short list, strongest first, that every scan is merged into. */
module WifiScan {

  const MAX_APS := 12
  const MAX_RECORDS := 10

  /** A signal strength of the radio: a signed byte that is never positive. */
  type Reading = r: int | -128 <= r <= 0

  datatype Key = Key(ssid: string, bssid: seq<bv8>)

  /** struct lws_wifi_scan; `rssi` is the sum of the readings that were merged. */
  datatype Scan = Scan(key: Key, rssi: int, count: int, channel: int, authmode: int)

  /** Division in C: towards zero. */
  function Divide(a: int, b: int): int
    requires b > 0
  {
    if a < 0 then -(-a / b) else a / b
  }

  /** lws_wifi_scan_rssi() */
  function Average(s: Scan): int
    requires s.count >= 0
  {
    if s.count == 0 then -127 else Divide(s.rssi, s.count)
  }

  // ---------- one entry ----------

  function Least(rs: seq<Reading>): (m: int)
    requires rs != []
    ensures m in rs && forall r :: r in rs ==> m <= r
  {
    assert rs == rs[..|rs| - 1] + [rs[|rs| - 1]];
    if |rs| == 1 then rs[0] else
    var m := Least(rs[..|rs| - 1]);
    if m < rs[|rs| - 1] then m else rs[|rs| - 1]
  }

  function Greatest(rs: seq<Reading>): (m: int)
    requires rs != []
    ensures m in rs && forall r :: r in rs ==> r <= m
  {
    assert rs == rs[..|rs| - 1] + [rs[|rs| - 1]];
    if |rs| == 1 then rs[0] else
    var m := Greatest(rs[..|rs| - 1]);
    if m > rs[|rs| - 1] then m else rs[|rs| - 1]
  }

  function Sum(rs: seq<Reading>): int { if rs == [] then 0 else Sum(rs[..|rs| - 1]) + rs[|rs| - 1] }

  /** The entry stands for these readings: for all of them while no count was halved, and always for
      something between the least and the greatest. */
  ghost predicate StandsFor(s: Scan, rs: seq<Reading>)
  {
    && rs != [] && 1 <= s.count <= 128
    && Least(rs) * s.count <= s.rssi <= Greatest(rs) * s.count
    && (|rs| <= 128 ==> s.count == |rs| && s.rssi == Sum(rs))
  }

  /** A further reading of the same access point. */
  function Merge(s: Scan, rssi: int): Scan
  {
    var h := if s.count > 127 then s.(count := s.count / 2, rssi := Divide(s.rssi, 2)) else s;
    h.(rssi := h.rssi + rssi, count := h.count + 1)
  }

  /** A reading always moves the sum by exactly itself; what came before keeps its whole weight up to 128
      readings, and from then on half of it, rounded towards zero. */
  lemma MergeAddsReading(s: Scan, r: Reading, r': Reading)
    requires s.rssi <= 0 && s.count >= 0
    ensures Merge(s, r).rssi - Merge(s, r').rssi == r - r'
    ensures s.count < 128 ==> Merge(s, r).rssi == s.rssi + r && Merge(s, r).count == s.count + 1
    ensures s.count >= 128 ==>
      s.rssi <= 2 * (Merge(s, r).rssi - r) <= s.rssi + 1 && s.count - 1 <= 2 * (Merge(s, r).count - 1) <= s.count
  {}

  lemma MergeStandsFor(s: Scan, rs: seq<Reading>, r: Reading)
    requires StandsFor(s, rs)
    ensures StandsFor(Merge(s, r), rs + [r])
  {
    hide Least, Greatest, Divide;
    var all := rs + [r];
    assert all[..|rs|] == rs;
    assert Least(rs) in all && Greatest(rs) in all && r in all;
    var h := if s.count > 127 then s.(count := s.count / 2, rssi := Divide(s.rssi, 2)) else s;
    if s.count > 127 { Halved(s.rssi, Least(rs), Greatest(rs)); }
    assert Least(rs) * h.count <= h.rssi <= Greatest(rs) * h.count;
    Shrinks(h.rssi, h.count, Greatest(rs), Greatest(all), r);
    Grows(h.rssi, h.count, Least(rs), Least(all), r);
  }

  lemma Halved(sum: int, least: int, greatest: int)
    requires least * 128 <= sum <= greatest * 128 <= 0
    ensures least * 64 <= Divide(sum, 2) <= greatest * 64
  {}

  lemma Grows(sum: int, count: nat, least: int, lower: int, r: int)
    requires least * count <= sum && lower <= least && lower <= r
    ensures lower * (count + 1) <= sum + r
  {
    assert lower * (count + 1) == lower * count + lower;
    assert lower * count <= least * count;
  }

  lemma Shrinks(sum: int, count: nat, greatest: int, upper: int, r: int)
    requires sum <= greatest * count && greatest <= upper && r <= upper
    ensures sum + r <= upper * (count + 1)
  {
    assert upper * (count + 1) == upper * count + upper;
    assert greatest * count <= upper * count;
  }

  /** Rounding does not take an average out of the range of the readings, nor the sum out of 32 bits. */
  lemma AverageInRange(s: Scan, rs: seq<Reading>)
    requires StandsFor(s, rs)
    ensures Least(rs) <= Average(s) <= Greatest(rs)
    ensures -0x4000 <= s.rssi <= 0
  {
    hide Least, Greatest;
    var least, greatest := Least(rs), Greatest(rs);
    Bounds(s.rssi, s.count, least, greatest);
    Quotient(-s.rssi, s.count, -greatest, -least);
  }

  lemma Bounds(sum: int, count: nat, least: int, greatest: int)
    requires least * count <= sum <= greatest * count && -128 <= least && greatest <= 0 && 1 <= count <= 128
    ensures -0x4000 <= sum <= 0
    ensures -greatest * count <= -sum <= -least * count
  {
    assert least * count >= -128 * count;
    assert greatest * count <= 0;
    assert -greatest * count == -(greatest * count);
    assert -least * count == -(least * count);
  }

  lemma Quotient(a: int, b: int, low: int, high: int)
    requires b > 0 && 0 <= low && low * b <= a <= high * b
    ensures low <= a / b <= high
  {
    var q := a / b;
    assert a == b * q + a % b;
    Between(q, b, a % b, low);
    Between(high, b, 0, q);
  }

  lemma Between(q: int, b: int, r: int, low: int)
    requires 0 <= r < b && low * b <= q * b + r
    ensures low <= q
  {
    Monotone(q + 1, low, b);
    assert (q + 1) * b == q * b + b;
  }

  lemma Monotone(x: int, y: int, b: nat)
    ensures x <= y ==> x * b <= y * b
  {}

  // ---------- the order ----------

  ghost predicate Usable(list: seq<Scan>) { forall s :: s in list ==> s.count >= 0 && Average(s) <= 0 }

  ghost predicate StrongestFirst(list: seq<Scan>)
    requires Usable(list)
  {
    forall i, j :: 0 <= i < j < |list| ==> Average(list[i]) >= Average(list[j])
  }

  /** The entries of one average, in their order. */
  ghost function WithAverage(list: seq<Scan>, a: int): (r: seq<Scan>)
    requires Usable(list)
    ensures forall s :: s in r <==> s in list && Average(s) == a
  {
    if list == [] then []
    else (if Average(list[0]) == a then [list[0]] else []) + WithAverage(list[1..], a)
  }

  lemma {:induction false} WithAverageOfSum(p: seq<Scan>, q: seq<Scan>, a: int)
    requires Usable(p) && Usable(q)
    ensures Usable(p + q) && WithAverage(p + q, a) == WithAverage(p, a) + WithAverage(q, a)
  {
    hide Average;
    if p == [] {
      assert p + q == q;
    } else {
      assert (p + q)[1..] == p[1..] + q;
      WithAverageOfSum(p[1..], q, a);
    }
  }

  lemma NoneWithAverage(list: seq<Scan>, a: int)
    requires Usable(list) && forall s :: s in list ==> Average(s) != a
    ensures WithAverage(list, a) == []
  {}

  /** `sorted` is `list` with the strongest first, and entries of one average keep their order. */
  ghost predicate StableSort(list: seq<Scan>, sorted: seq<Scan>)
    requires Usable(list)
  {
    && Usable(sorted) && StrongestFirst(sorted) && multiset(sorted) == multiset(list)
    && forall a :: WithAverage(sorted, a) == WithAverage(list, a)
  }

  function Removed(list: seq<Scan>, i: nat): (r: seq<Scan>)
    requires i < |list|
    ensures |r| == |list| - 1 && multiset(r) + multiset([list[i]]) == multiset(list)
    ensures forall s :: s in r ==> s in list
  {
    assert list == list[..i] + [list[i]] + list[i + 1..];
    list[..i] + list[i + 1..]
  }

  /** i is the last of the weakest. */
  ghost predicate IsWorst(list: seq<Scan>, i: nat)
    requires Usable(list)
  {
    && i < |list|
    && (forall j :: 0 <= j < |list| ==> Average(list[j]) >= Average(list[i]))
    && (forall j :: i < j < |list| ==> Average(list[j]) > Average(list[i]))
  }

  /** Moving the last of the weakest to the front of the others keeps the order of equals. */
  lemma MoveWorst(list: seq<Scan>, sorted: seq<Scan>, i: nat, a: int)
    requires Usable(list) && Usable(sorted) && IsWorst(list, i)
    ensures Usable(Removed(list, i)) && Usable([list[i]] + sorted)
    ensures WithAverage(Removed(list, i), a) + WithAverage([list[i]] + sorted, a) ==
            WithAverage(list, a) + WithAverage(sorted, a)
  {
    hide WithAverage, Average;
    var x, p, q := list[i], list[..i], list[i + 1..];
    assert list == p + ([x] + q);
    WithAverageOfSum(p, [x] + q, a);
    WithAverageOfSum([x], q, a);
    WithAverageOfSum(p, q, a);
    WithAverageOfSum([x], sorted, a);
    if Average(x) == a {
      assert forall s :: s in q ==> Average(s) > a;
      NoneWithAverage(q, a);
    } else {
      NoneWithAverage([x], a);
    }
  }

  // ---------- keys ----------

  function Keys(list: seq<Scan>): set<Key> { set s | s in list :: s.key }

  lemma {:induction false} AsManyKeys(list: seq<Scan>)
    requires KnownAps.DistinctKeys(list)
    ensures |Keys(list)| == |list|
  {
    if list != [] {
      var rest := list[1..];
      AsManyKeys(rest);
      assert list == [list[0]] + rest;
      assert Keys(list) == {list[0].key} + Keys(rest);
      assert forall k :: 0 <= k < |rest| ==> rest[k] == list[k + 1];
    }
  }

  lemma MoreKeys(few: set<Key>, many: set<Key>)
    requires few <= many
    ensures |few| <= |many|
  {
    assert many == few + (many - few);
  }

  /** As long as the list has room for the key, no key is lost. */
  /** An entry that is replaced by one of the same key leaves the keys as they are. */
  lemma ReplacedKeys(list: seq<Scan>, i: nat, s: Scan)
    requires i < |list| && s.key == list[i].key
    ensures Keys(list[i := s]) == Keys(list)
  {
    var after := list[i := s];
    forall k | k in Keys(list) ensures k in Keys(after) {
      var j :| 0 <= j < |list| && list[j].key == k;
      assert after[j] in after && after[j].key == k;
    }
    forall k | k in Keys(after) ensures k in Keys(list) {
      var j :| 0 <= j < |after| && after[j].key == k;
      assert list[j] in list && list[j].key == k;
    }
  }

  lemma InsertedKeys(list: seq<Scan>, ns: Scan)
    requires KnownAps.DistinctKeys(list) && |Keys(list) + {ns.key}| <= MAX_APS
    ensures Keys(KnownAps.Inserted(list, ns)) == Keys(list) + {ns.key}
  {
    hide KnownAps.IndexOf, KnownAps.DistinctKeys, Divide;
    var i := KnownAps.IndexOf(list, ns.key);
    AsManyKeys(list);
    IndexOfKey(list, ns.key);
    if i < |list| {
      ReplacedKeys(list, i, Merge(list[i], ns.rssi));
    } else {
      assert |Keys(list) + {ns.key}| == |list| + 1;
      assert KnownAps.Inserted(list, ns) == [ns] + list;
      assert forall s :: s in [ns] + list <==> s == ns || s in list;
    }
  }

  lemma IndexOfKey(list: seq<Scan>, key: Key)
    ensures KnownAps.IndexOf(list, key) < |list| <==> key in Keys(list)
  {
    var i := KnownAps.IndexOf(list, key);
    if i < |list| { assert list[i] in list; }
  }

  lemma SameKeys(p: seq<Scan>, q: seq<Scan>)
    requires forall s :: s in p <==> s in q
    ensures Keys(p) == Keys(q)
  {}

  /** The readings that an entry of this key has, if there is one. */
  function Before(list: seq<Scan>, readings: map<Key, seq<Reading>>, key: Key): seq<Reading>
  {
    if key in Keys(list) && key in readings then readings[key] else []
  }

  class KnownAps {
    var list: seq<Scan>
    /** The readings that were merged into an entry since it was inserted. */
    ghost var readings: map<Key, seq<Reading>>
    /** All readings that ever came. */
    ghost var seen: set<(Key, int)>

    constructor ()
      ensures Valid() && list == [] && seen == {} && readings == map[]
    {
      list, readings, seen := [], map[], {};
    }

    ghost predicate Valid()
      reads this
    {
      && Sound(list, readings) && StrongestFirst(list)
      && AllSeen(readings, seen)
    }

    static ghost predicate DistinctKeys(list: seq<Scan>)
    {
      forall i, j :: 0 <= i < j < |list| ==> list[i].key != list[j].key
    }

    /** Where the entry of a key is. */
    static function IndexOf(list: seq<Scan>, key: Key): (i: nat)
      ensures i <= |list| && (i < |list| ==> list[i].key == key)
      ensures forall j :: 0 <= j < i ==> list[j].key != key
    {
      if list == [] || list[0].key == key then 0 else 1 + IndexOf(list[1..], key)
    }

    /** The list before it is sorted: the reading is merged into the entry of its key, or a new entry is
        put in front of the strongest of the others. */
    static function Inserted(list: seq<Scan>, ns: Scan): seq<Scan>
    {
      var i := IndexOf(list, ns.key);
      if i < |list| then list[i := Merge(list[i], ns.rssi)]
      else [ns] + Trimmed(list)
    }

    static function Trimmed(list: seq<Scan>): seq<Scan>
    {
      if |list| > MAX_APS - 1 then list[..MAX_APS - 1] else list
    }

    /** The first loop of lws_wifi_scan_insert_trim() */
    method MergeIntoMatch(ns: Scan) returns (ins: bool)
      modifies this`list
      ensures ins <==> IndexOf(old(list), ns.key) == |old(list)|
      ensures list == if ins then old(list) else Inserted(old(list), ns)
    {
      var i := 0;
      while i < |list|
        invariant i <= |list| && list == old(list)
        invariant IndexOf(list, ns.key) == i + IndexOf(list[i..], ns.key)
      {
        assert list[i..][1..] == list[i + 1..];
        var p := list[i];
        if p.key == ns.key {
          if p.count > 127 {
            p := p.(count := p.count / 2, rssi := Divide(p.rssi, 2));
          }
          p := p.(rssi := p.rssi + ns.rssi);
          p := p.(count := p.count + 1);
          list := list[i := p];
          return false;
        }
        i := i + 1;
      }
      return true;
    }

    /** The second loop: whatever is behind the first MAX_APS - 1 entries is removed. */
    method Trim()
      modifies this`list
      ensures list == Trimmed(old(list))
    {
      var count, i := 0, 0;
      while i < |list|
        invariant i <= |list| <= |old(list)| && list[..i] == old(list)[..i] && i <= MAX_APS - 1
        invariant count >= i && (count > i ==> i == MAX_APS - 1)
        invariant i < MAX_APS - 1 ==> list == old(list)
        decreases |list| - i
      {
        count := count + 1;
        if count - 1 >= MAX_APS - 1 {
          list := list[..i] + list[i + 1..];
          continue;
        }
        i := i + 1;
      }
    }

    /** The inner loop of the sort.  There is no worst entry when all averages are positive. */
    method FindWorst() returns (found: bool, pworst: nat)
      requires forall s :: s in list ==> s.count >= 0
      ensures found <==> exists s :: s in list && Average(s) <= 0
      ensures found && Usable(list) ==> IsWorst(list, pworst)
    {
      found, pworst := false, 0;
      var worst, i := 0, 0;
      while i < |list|
        invariant i <= |list|
        invariant found <==> exists j :: 0 <= j < i && Average(list[j]) <= 0
        invariant !found ==> worst == 0
        invariant found ==> pworst < i && worst == Average(list[pworst]) <= 0
        invariant found ==> forall j :: 0 <= j < i ==> Average(list[j]) >= worst
        invariant found ==> forall j :: pworst < j < i ==> Average(list[j]) > worst
      {
        if Average(list[i]) <= worst {
          worst := Average(list[i]);
          pworst := i;
          found := true;
        }
        i := i + 1;
      }
    }

    /** The sort of lws_wifi_scan_insert_trim() */
    method Sort()
      requires Usable(list)
      modifies this`list
      ensures StableSort(old(list), list)
    {
      hide WithAverage, Average, IsWorst, StableSort, SortedSoFar;
      ghost var orig := list;
      var newlist: seq<Scan> := [];
      SortStarts(list);
      while |list| > 0
        invariant Usable(list) && Usable(newlist) && Usable(orig)
        invariant SortedSoFar(orig, list, newlist)
        decreases |list|
      {
        assert list[0] in list;
        var found, pworst := FindWorst();
        IsWorstInside(list, pworst);
        SortStep(orig, list, newlist, pworst);
        var pp1 := list[pworst];
        list := Removed(list, pworst);
        newlist := [pp1] + newlist;
      }
      SortEnds(orig, list, newlist);
      list := newlist;
    }

    /** lws_wifi_scan_insert_trim(); `haveMemory` says whether malloc() has memory for a new entry. */
    method InsertTrim(ns: Scan, haveMemory: bool) returns (rc: int)
      requires Valid() && ns.count == 1 && -128 <= ns.rssi <= 0
      modifies this
      ensures Valid() && (seen == old(seen) || seen == old(seen) + {(ns.key, ns.rssi)})
      ensures var isNew := IndexOf(old(list), ns.key) == |old(list)|;
        if isNew && !haveMemory then
          rc == -1 && readings == old(readings) && list == Inserted(old(list), ns)[1..]
        else
          && rc == 0 && Usable(Inserted(old(list), ns)) && StableSort(Inserted(old(list), ns), list)
          && readings == Noted(old(list), old(readings), ns)
      ensures haveMemory ==> readings == old(readings)[ns.key := Before(old(list), old(readings), ns.key) + [ns.rssi]]
      ensures haveMemory && |Keys(old(list)) + {ns.key}| <= MAX_APS ==> Keys(list) == Keys(old(list)) + {ns.key}
      ensures forall s, t :: s in old(list) && s.key != ns.key && s !in list && t in list && t.key != ns.key ==>
        |old(list)| == MAX_APS && Average(t) >= Average(s)
    {
      ghost var before := list;
      SoundIsUsable(list, readings);
      ListAfter(list, readings, ns);
      NotedIs(list, readings, ns);
      if |Keys(list) + {ns.key}| <= MAX_APS { InsertedKeys(list, ns); }
      NotedSeen(list, readings, ns, seen);
      hide Sound, StrongestFirst, Usable, StableSort, AllSeen, Noted, Average, Keys, Before,
           KnownAps.Inserted, KnownAps.Trimmed, KnownAps.IndexOf;
      var ins := MergeIntoMatch(ns);
      if ins {
        Trim();
        InsertedNew(before, ns);
        if !haveMemory {
          TrimKeepsOrder(before);
          return -1;
        }
        list := [ns] + list;
      }
      readings := Noted(before, readings, ns);
      seen := seen + {(ns.key, ns.rssi)};
      SoundIsUsable(list, readings);
      Sort();
      SortKeeps(Inserted(before, ns), list, readings);
      SameKeys(Inserted(before, ns), list);
      Weakest(before, ns, list);
      return 0;
    }
  }

  /** The readings behind the entries, with the new one. */
  ghost function Noted(list: seq<Scan>, readings: map<Key, seq<Reading>>, ns: Scan): map<Key, seq<Reading>>
    requires -128 <= ns.rssi <= 0 && forall s :: s in list ==> s.key in readings
  {
    var i := KnownAps.IndexOf(list, ns.key);
    readings[ns.key := (if i < |list| then assert list[i] in list; readings[ns.key] else []) + [ns.rssi]]
  }

  lemma NotedIs(list: seq<Scan>, readings: map<Key, seq<Reading>>, ns: Scan)
    requires -128 <= ns.rssi <= 0 && forall s :: s in list ==> s.key in readings
    ensures Noted(list, readings, ns) == readings[ns.key := Before(list, readings, ns.key) + [ns.rssi]]
  {
    IndexOfKey(list, ns.key);
  }

  ghost predicate AllSeen(readings: map<Key, seq<Reading>>, seen: set<(Key, int)>)
  {
    forall key, r :: key in readings && r in readings[key] ==> (key, r) in seen
  }

  lemma NotedSeen(list: seq<Scan>, readings: map<Key, seq<Reading>>, ns: Scan, seen: set<(Key, int)>)
    requires -128 <= ns.rssi <= 0 && (forall s :: s in list ==> s.key in readings) && AllSeen(readings, seen)
    ensures AllSeen(Noted(list, readings, ns), seen + {(ns.key, ns.rssi)})
  {}

  /** What holds of a list before and after it is sorted. */
  ghost predicate Sound(list: seq<Scan>, readings: map<Key, seq<Reading>>)
  {
    && |list| <= MAX_APS && KnownAps.DistinctKeys(list)
    && (forall s :: s in list ==> s.key in readings && StandsFor(s, readings[s.key]))
    && Usable(list)
  }

  // ---------- whole runs ----------

  /** What the radio tells of one access point. */
  datatype Record = Record(key: Key, rssi: Reading, channel: int, authmode: int)

  function Readings(records: seq<Record>): set<(Key, int)>
  {
    set record | record in records :: (record.key, record.rssi as int)
  }

  function AllReadings(scans: seq<seq<Record>>): set<(Key, int)>
  {
    set scan, reading | scan in scans && reading in Readings(scan) :: reading
  }

  /** The average shown lies between two readings of this access point. */
  ghost predicate BetweenReadings(s: Scan, all: set<(Key, int)>)
    requires s.count >= 0
  {
    exists low, high :: (s.key, low) in all && (s.key, high) in all && low <= Average(s) <= high
  }

  /** The readings of one access point, in their order. */
  function RssiOf(records: seq<Record>, key: Key): seq<Reading>
  {
    if records == [] then [] else
    var last := records[|records| - 1];
    RssiOf(records[..|records| - 1], key) + if last.key == key then [last.rssi] else []
  }

  function KeysOf(records: seq<Record>): set<Key> { set record | record in records :: record.key }

  /** The records that a scan keeps: its first ten. */
  function Kept(records: seq<Record>): seq<Record>
  {
    if |records| < MAX_RECORDS then records else records[..MAX_RECORDS]
  }

  /** Nothing is lost of these records: every access point is on the list, with its readings from before,
      if it was there, and then those of the records. */
  ghost predicate AllMerged(before: seq<Scan>, noted: map<Key, seq<Reading>>, records: seq<Record>,
                            list: seq<Scan>, readings: map<Key, seq<Reading>>)
  {
    && Keys(list) == Keys(before) + KeysOf(records)
    && (forall key :: key in Keys(list) ==> key in readings)
    && forall key :: key in Keys(list) ==> readings[key] == Before(before, noted, key) + RssiOf(records, key)
  }

  lemma NothingMerged(list: seq<Scan>, readings: map<Key, seq<Reading>>)
    requires forall s :: s in list ==> s.key in readings
    ensures AllMerged(list, readings, [], list, readings)
  {}

  lemma OneMoreMerged(before: seq<Scan>, noted: map<Key, seq<Reading>>, records: seq<Record>, m: nat,
                      mid: seq<Scan>, midReadings: map<Key, seq<Reading>>,
                      list: seq<Scan>, readings: map<Key, seq<Reading>>)
    requires m < |records| && AllMerged(before, noted, records[..m], mid, midReadings)
    requires OneMerged(mid, midReadings, records[m], list, readings)
    ensures AllMerged(before, noted, records[..m + 1], list, readings)
  {
    OneMoreKey(records, m);
    hide Keys, KeysOf, RssiOf, Before;
    forall key | key in Keys(list)
      ensures key in readings && readings[key] == Before(before, noted, key) + RssiOf(records[..m + 1], key)
    {
      ReadingsAfter(before, noted, records, m, mid, midReadings, readings, key);
    }
  }

  lemma ReadingsAfter(before: seq<Scan>, noted: map<Key, seq<Reading>>, records: seq<Record>, m: nat,
                      mid: seq<Scan>, midReadings: map<Key, seq<Reading>>, readings: map<Key, seq<Reading>>, key: Key)
    requires m < |records| && AllMerged(before, noted, records[..m], mid, midReadings)
    requires readings == midReadings[records[m].key := Before(mid, midReadings, records[m].key) + [records[m].rssi]]
    requires key in Keys(mid) || key == records[m].key
    ensures key in readings && readings[key] == Before(before, noted, key) + RssiOf(records[..m + 1], key)
  {
    OneMoreReading(before, noted, records, m, mid, midReadings, key);
    OneMoreRssi(records, m, key);
    hide Keys, KeysOf, RssiOf, Before, AllMerged;
  }

  lemma OneMoreReading(before: seq<Scan>, noted: map<Key, seq<Reading>>, records: seq<Record>, m: nat,
                       mid: seq<Scan>, midReadings: map<Key, seq<Reading>>, key: Key)
    requires m < |records| && AllMerged(before, noted, records[..m], mid, midReadings)
    ensures Before(mid, midReadings, key) == Before(before, noted, key) + RssiOf(records[..m], key)
    ensures key in Keys(mid) ==> key in midReadings && midReadings[key] == Before(mid, midReadings, key)
    ensures var b, rs := Before(before, noted, key), RssiOf(records[..m], key);
      (b + rs) + [records[m].rssi] == b + (rs + [records[m].rssi]) && b + (rs + []) == b + rs
  {
    hide Keys, KeysOf, RssiOf;
    if key !in Keys(mid) { NoRssi(records[..m], key); }
  }

  lemma OneMoreKey(records: seq<Record>, m: nat)
    requires m < |records|
    ensures KeysOf(records[..m + 1]) == KeysOf(records[..m]) + {records[m].key}
  {
    assert records[..m + 1] == records[..m] + [records[m]];
  }

  lemma OneMoreRssi(records: seq<Record>, m: nat, key: Key)
    requires m < |records|
    ensures RssiOf(records[..m + 1], key) ==
      RssiOf(records[..m], key) + if records[m].key == key then [records[m].rssi] else []
  {
    assert records[..m + 1][..m] == records[..m];
  }

  lemma KeysOfMore(p: seq<Record>, q: seq<Record>)
    ensures KeysOf(p + q) == KeysOf(p) + KeysOf(q)
  {
    assert forall r :: r in p + q <==> r in p || r in q;
  }

  lemma {:induction false} NoRssi(records: seq<Record>, key: Key)
    requires key !in KeysOf(records)
    ensures RssiOf(records, key) == []
  {
    if records != [] {
      var front := records[..|records| - 1];
      assert forall r :: r in front ==> r in records;
      NoRssi(front, key);
    }
  }

  lemma {:induction false} RssiOfMore(p: seq<Record>, q: seq<Record>, key: Key)
    ensures RssiOf(p + q, key) == RssiOf(p, key) + RssiOf(q, key)
    decreases |q|
  {
    if q == [] {
      assert p + q == p;
    } else {
      assert (p + q)[..|p + q| - 1] == p + q[..|q| - 1];
      RssiOfMore(p, q[..|q| - 1], key);
    }
  }

  lemma MergedKeys(records: seq<Record>, list: seq<Scan>, readings: map<Key, seq<Reading>>, key: Key)
    requires AllMerged([], map[], records, list, readings)
    ensures Keys(list) == KeysOf(records)
    ensures key in Keys(list) ==> key in readings && readings[key] == RssiOf(records, key)
  {}

  lemma MergedTwice(p: seq<Record>, mid: seq<Scan>, midReadings: map<Key, seq<Reading>>,
                    q: seq<Record>, list: seq<Scan>, readings: map<Key, seq<Reading>>)
    requires AllMerged([], map[], p, mid, midReadings) && AllMerged(mid, midReadings, q, list, readings)
    ensures AllMerged([], map[], p + q, list, readings)
  {
    KeysOfMore(p, q);
    assert Keys([]) == {};
    MergedKeys(p, mid, midReadings, Key("", []));
    hide Keys, KeysOf, RssiOf;
    forall key | key in Keys(list)
      ensures readings[key] == Before([], map[], key) + RssiOf(p + q, key)
    {
      MergedKeys(p, mid, midReadings, key);
      RssiOfMore(p, q, key);
      if key !in Keys(mid) { NoRssi(p, key); }
    }
  }

  lemma InReadings(records: seq<Record>, m: nat)
    requires m < |records|
    ensures (records[m].key, records[m].rssi as int) in Readings(records)
  {
    assert records[m] in records;
  }

  /** There is room on the list for these access points. */
  ghost predicate HasRoom(list: seq<Scan>, keys: set<Key>) { |Keys(list) + keys| <= MAX_APS }

  /** The record has been merged, and no access point was lost. */
  ghost predicate OneMerged(before: seq<Scan>, noted: map<Key, seq<Reading>>, r: Record,
                            list: seq<Scan>, readings: map<Key, seq<Reading>>)
  {
    Keys(list) == Keys(before) + {r.key} && readings == noted[r.key := Before(before, noted, r.key) + [r.rssi]]
  }

  /** One round of the loop of scan_finished() */
  method MergeRecord(aps: KnownAps, r: Record, haveMemory: bool)
    requires aps.Valid()
    modifies aps
    ensures aps.Valid() && (aps.seen == old(aps.seen) || aps.seen == old(aps.seen) + {(r.key, r.rssi as int)})
    ensures haveMemory && HasRoom(old(aps.list), {r.key}) ==>
      OneMerged(old(aps.list), old(aps.readings), r, aps.list, aps.readings)
  {
    hide Average, Before, Keys, Noted, StableSort, Usable, KnownAps.Inserted, KnownAps.IndexOf, KnownAps.Valid;
    var _ := aps.InsertTrim(Scan(r.key, r.rssi, 1, r.channel, r.authmode), haveMemory);
  }

  /** The loop of scan_finished() over the records.  If there is memory and room for all access points, none
      of the first ten records is lost. */
  method ScanFinished(aps: KnownAps, records: seq<Record>, haveMemory: nat -> bool)
    requires aps.Valid()
    modifies aps
    ensures aps.Valid()
    ensures aps.seen <= old(aps.seen) + Readings(records)
    ensures (forall m :: haveMemory(m)) && HasRoom(old(aps.list), KeysOf(Kept(records))) ==>
      AllMerged(old(aps.list), old(aps.readings), Kept(records), aps.list, aps.readings)
  {
    ghost var before, noted, kept := aps.list, aps.readings, Kept(records);
    ghost var roomy := (forall m :: haveMemory(m)) && HasRoom(before, KeysOf(kept));
    assert roomy ==> forall m :: haveMemory(m);
    SoundIsUsable(before, noted);
    NothingMerged(before, noted);
    hide HasRoom, KeysOf, AllMerged, OneMerged, KnownAps.Valid, Readings;
    var count := if |records| < MAX_RECORDS then |records| else MAX_RECORDS;
    assert records[..0] == [] && records[..count] == kept;
    hide Kept;
    for m := 0 to count
      invariant aps.Valid() && aps.seen <= old(aps.seen) + Readings(records)
      invariant roomy ==> AllMerged(before, noted, records[..m], aps.list, aps.readings)
    {
      InReadings(records, m);
      ghost var mid, midReadings := aps.list, aps.readings;
      if roomy { RoomForOne(before, noted, records, kept, m, mid, midReadings); }
      MergeRecord(aps, records[m], haveMemory(m));
      if roomy { OneMoreMerged(before, noted, records, m, mid, midReadings, aps.list, aps.readings); }
    }
  }

  lemma RoomForOne(before: seq<Scan>, noted: map<Key, seq<Reading>>, records: seq<Record>, kept: seq<Record>, m: nat,
                   list: seq<Scan>, readings: map<Key, seq<Reading>>)
    requires m < |kept| && kept <= records && HasRoom(before, KeysOf(kept))
    requires AllMerged(before, noted, records[..m], list, readings)
    ensures HasRoom(list, {records[m].key})
  {
    assert records[..m] == kept[..m] && records[m] == kept[m];
    assert kept[m] in kept && forall r :: r in kept[..m] ==> r in kept;
    MoreKeys(Keys(list) + {kept[m].key}, Keys(before) + KeysOf(kept));
  }

  /** The records of all scans that are kept. */
  function AllKept(scans: seq<seq<Record>>): seq<Record>
  {
    if scans == [] then [] else AllKept(scans[..|scans| - 1]) + Kept(scans[|scans| - 1])
  }

  /** Any scans, with memory or without: the list is short, without duplicates, strongest first, and
      shows only averages of what was seen.  With memory and at most 12 access points, it shows exactly these;
      and for up to 128 readings of one, it has the number and the sum of them all. */
  method Run(scans: seq<seq<Record>>, haveMemory: (nat, nat) -> bool) returns (list: seq<Scan>)
    ensures |list| <= MAX_APS && KnownAps.DistinctKeys(list)
    ensures Usable(list) && StrongestFirst(list)
    ensures forall s :: s in list ==> 1 <= s.count <= 128 && BetweenReadings(s, AllReadings(scans))
    ensures (forall n, m :: haveMemory(n, m)) && |KeysOf(AllKept(scans))| <= MAX_APS ==>
      && Keys(list) == KeysOf(AllKept(scans))
      && forall s :: s in list ==> var rs := RssiOf(AllKept(scans), s.key);
           |rs| <= 128 ==> s.count == |rs| && s.rssi == Sum(rs)
  {
    hide Average, StandsFor, KeysOf, Keys, AllMerged;
    var aps := new KnownAps();
    NothingMerged([], map[]);
    assert scans[..0] == [];
    ghost var roomy := (forall n, m :: haveMemory(n, m)) && |KeysOf(AllKept(scans))| <= MAX_APS;
    for n: nat := 0 to |scans|
      invariant aps.Valid() && fresh(aps) && aps.seen <= AllReadings(scans)
      invariant roomy ==> AllMerged([], map[], AllKept(scans[..n]), aps.list, aps.readings)
    {
      ghost var mid, midReadings := aps.list, aps.readings;
      assert scans[n] in scans && scans[..n + 1][..n] == scans[..n];
      if roomy { RoomForScan(scans, n, mid, midReadings); }
      ScanFinished(aps, scans[n], (m: nat) => haveMemory(n, m));
      if roomy {
        MergedTwice(AllKept(scans[..n]), mid, midReadings, Kept(scans[n]), aps.list, aps.readings);
      }
    }
    assert scans[..|scans|] == scans;
    list := aps.list;
    forall s | s in list
      ensures 1 <= s.count <= 128 && BetweenReadings(s, AllReadings(scans))
    {
      var rs := aps.readings[s.key];
      CountAtLeastOne(s, rs);
      AverageInRange(s, rs);
      assert (s.key, Least(rs)) in aps.seen && (s.key, Greatest(rs)) in aps.seen;
    }
    if roomy { AllCounted(AllKept(scans), list, aps.readings); }
  }

  lemma RoomForScan(scans: seq<seq<Record>>, n: nat, list: seq<Scan>, readings: map<Key, seq<Reading>>)
    requires n < |scans| && |KeysOf(AllKept(scans))| <= MAX_APS
    requires AllMerged([], map[], AllKept(scans[..n]), list, readings)
    ensures HasRoom(list, KeysOf(Kept(scans[n])))
  {
    hide Keys, KeysOf, AllKept, Kept, AllMerged;
    var p, q := AllKept(scans[..n]), Kept(scans[n]);
    KeptAtLeast(scans, n + 1);
    AllKeptStep(scans, n);
    KeysOfMore(p, q);
    MergedKeys(p, list, readings, Key("", []));
    MoreKeys(Keys(list) + KeysOf(q), KeysOf(AllKept(scans)));
  }

  lemma AllKeptStep(scans: seq<seq<Record>>, n: nat)
    requires n < |scans|
    ensures AllKept(scans[..n + 1]) == AllKept(scans[..n]) + Kept(scans[n])
  {
    assert scans[..n + 1][..n] == scans[..n];
  }

  lemma {:induction false} KeptAtLeast(scans: seq<seq<Record>>, n: nat)
    requires n <= |scans|
    ensures KeysOf(AllKept(scans[..n])) <= KeysOf(AllKept(scans))
  {
    if n < |scans| {
      var front := scans[..|scans| - 1];
      KeptAtLeast(front, n);
      assert front[..n] == scans[..n];
      KeysOfMore(AllKept(front), Kept(scans[|scans| - 1]));
    } else {
      assert scans[..n] == scans;
    }
  }

  lemma AllCounted(records: seq<Record>, list: seq<Scan>, readings: map<Key, seq<Reading>>)
    requires Sound(list, readings) && AllMerged([], map[], records, list, readings)
    ensures Keys(list) == KeysOf(records)
    ensures forall s :: s in list ==> var rs := RssiOf(records, s.key);
      |rs| <= 128 ==> s.count == |rs| && s.rssi == Sum(rs)
  {
    forall s | s in list
      ensures readings[s.key] == RssiOf(records, s.key)
    {
      assert s.key in Keys(list);
    }
  }

  lemma CountAtLeastOne(s: Scan, rs: seq<Reading>)
    requires StandsFor(s, rs)
    ensures rs != [] && 1 <= s.count <= 128
  {}

  // ---------- the sort ----------

  /** The weakest are on the new list, in their final order. */
  ghost predicate SortedSoFar(orig: seq<Scan>, list: seq<Scan>, newlist: seq<Scan>)
    requires Usable(orig) && Usable(list) && Usable(newlist)
  {
    && StrongestFirst(newlist)
    && (forall s, t :: s in list && t in newlist ==> Average(s) >= Average(t))
    && multiset(list) + multiset(newlist) == multiset(orig)
    && forall a :: WithAverage(list, a) + WithAverage(newlist, a) == WithAverage(orig, a)
  }

  lemma IsWorstInside(list: seq<Scan>, i: nat)
    requires Usable(list) && IsWorst(list, i)
    ensures i < |list|
  {}

  lemma SortStarts(list: seq<Scan>)
    requires Usable(list)
    ensures Usable([]) && SortedSoFar(list, list, [])
  {
    assert forall a :: WithAverage(list, a) + WithAverage([], a) == WithAverage(list, a);
  }

  lemma SortStep(orig: seq<Scan>, list: seq<Scan>, newlist: seq<Scan>, i: nat)
    requires Usable(orig) && Usable(list) && Usable(newlist)
    requires SortedSoFar(orig, list, newlist) && IsWorst(list, i)
    ensures Usable(Removed(list, i)) && Usable([list[i]] + newlist)
    ensures SortedSoFar(orig, Removed(list, i), [list[i]] + newlist)
  {
    hide WithAverage, Average;
    var x, rest := list[i], Removed(list, i);
    forall a
      ensures WithAverage(rest, a) + WithAverage([x] + newlist, a) == WithAverage(orig, a)
    {
      MoveWorst(list, newlist, i, a);
    }
    assert forall s :: s in rest ==> s in list;
    assert forall s :: s in list ==> Average(s) >= Average(x);
    assert multiset([x] + newlist) == multiset([x]) + multiset(newlist);
  }

  lemma SortEnds(orig: seq<Scan>, list: seq<Scan>, newlist: seq<Scan>)
    requires Usable(orig) && Usable(list) && Usable(newlist)
    requires SortedSoFar(orig, list, newlist) && list == []
    ensures StableSort(orig, newlist)
  {
    forall a
      ensures WithAverage(newlist, a) == WithAverage(orig, a)
    {
      assert WithAverage(list, a) + WithAverage(newlist, a) == WithAverage(newlist, a);
    }
  }

  lemma ListAfter(list: seq<Scan>, readings: map<Key, seq<Reading>>, ns: Scan)
    requires Sound(list, readings) && ns.count == 1 && -128 <= ns.rssi <= 0
    ensures Sound(KnownAps.Inserted(list, ns), Noted(list, readings, ns))
    ensures KnownAps.IndexOf(list, ns.key) == |list| ==> Sound(KnownAps.Inserted(list, ns)[1..], readings)
  {
    var rs := Noted(list, readings, ns)[ns.key];
    hide Average, StandsFor, Merge, Sound, KnownAps.IndexOf;
    var i := KnownAps.IndexOf(list, ns.key);
    if i < |list| {
      SoundAt(list, readings, i);
      MergeStandsFor(list[i], readings[ns.key], ns.rssi);
      MergeKeepsKey(list[i], ns.rssi);
      MergedAfter(list, readings, i, Merge(list[i], ns.rssi), rs);
    } else {
      FirstStandsFor(ns, rs);
      var kept := KnownAps.Trimmed(list);
      TrimmedAfter(list, readings);
      NewAfter(kept, readings, ns, rs);
      assert KnownAps.Inserted(list, ns)[1..] == kept;
    }
  }

  lemma SoundAt(list: seq<Scan>, readings: map<Key, seq<Reading>>, i: nat)
    requires Sound(list, readings) && i < |list|
    ensures list[i].key in readings && StandsFor(list[i], readings[list[i].key])
  {
    assert list[i] in list;
  }

  lemma MergeKeepsKey(s: Scan, rssi: int)
    ensures Merge(s, rssi).key == s.key
  {}

  lemma FirstStandsFor(ns: Scan, rs: seq<Reading>)
    requires ns.count == 1 && -128 <= ns.rssi <= 0 && rs == [ns.rssi]
    ensures StandsFor(ns, rs)
  {
    assert rs[..0] == [];
  }

  lemma MergedAfter(list: seq<Scan>, readings: map<Key, seq<Reading>>, i: nat, s: Scan, rs: seq<Reading>)
    requires Sound(list, readings) && i < |list| && s.key == list[i].key && StandsFor(s, rs)
    ensures Sound(list[i := s], readings[s.key := rs])
  {
    UsableAfter(s, rs);
    hide Average, StandsFor;
    var after := list[i := s];
    assert forall k :: 0 <= k < |list| ==> list[k] in list;
    assert forall t :: t in after ==> t == s || (t in list && t.key != s.key);
  }

  lemma TrimmedAfter(list: seq<Scan>, readings: map<Key, seq<Reading>>)
    requires Sound(list, readings)
    ensures Sound(KnownAps.Trimmed(list), readings)
  {}

  lemma NewAfter(list: seq<Scan>, readings: map<Key, seq<Reading>>, ns: Scan, rs: seq<Reading>)
    requires Sound(list, readings) && |list| < MAX_APS && StandsFor(ns, rs)
    requires forall k :: 0 <= k < |list| ==> list[k].key != ns.key
    ensures Sound([ns] + list, readings[ns.key := rs])
  {
    UsableAfter(ns, rs);
    hide Average, StandsFor;
  }

  lemma UsableAfter(s: Scan, rs: seq<Reading>)
    requires StandsFor(s, rs)
    ensures s.count >= 0 && Average(s) <= 0
  {
    AverageInRange(s, rs);
  }

  lemma {:induction false} AtMostOnce(list: seq<Scan>, s: Scan)
    requires KnownAps.DistinctKeys(list)
    ensures multiset(list)[s] <= 1
  {
    if list != [] {
      assert list == [list[0]] + list[1..];
      AtMostOnce(list[1..], s);
    }
  }

  lemma Twice(list: seq<Scan>, i: nat, j: nat)
    requires i < j < |list| && list[i] == list[j]
    ensures multiset(list)[list[i]] >= 2
  {
    assert list == list[..j] + list[j..];
    assert list[..j][i] in multiset(list[..j]) && list[j..][0] in multiset(list[j..]);
  }

  lemma SortKeeps(list: seq<Scan>, sorted: seq<Scan>, readings: map<Key, seq<Reading>>)
    requires Sound(list, readings) && StableSort(list, sorted)
    ensures Sound(sorted, readings) && StrongestFirst(sorted)
    ensures forall s :: s in list <==> s in sorted
  {
    hide WithAverage, Average, StandsFor;
    assert |multiset(list)| == |list| && |multiset(sorted)| == |sorted|;
    assert forall s :: s in list <==> s in multiset(list);
    forall i, j | 0 <= i < j < |sorted|
      ensures sorted[i].key != sorted[j].key
    {
      AtMostOnce(list, sorted[i]);
      if sorted[i] == sorted[j] { Twice(sorted, i, j); }
      assert sorted[i] in multiset(list) && sorted[j] in multiset(list);
    }
  }

  lemma InsertedNew(list: seq<Scan>, ns: Scan)
    ensures KnownAps.IndexOf(list, ns.key) == |list| ==>
      && KnownAps.Inserted(list, ns) == [ns] + KnownAps.Trimmed(list)
      && KnownAps.Inserted(list, ns)[1..] == KnownAps.Trimmed(list)
  {}

  lemma SoundIsUsable(list: seq<Scan>, readings: map<Key, seq<Reading>>)
    requires Sound(list, readings)
    ensures Usable(list) && |list| <= MAX_APS && forall s :: s in list ==> s.key in readings
  {}

  lemma TrimKeepsOrder(list: seq<Scan>)
    requires Usable(list) && StrongestFirst(list)
    ensures Usable(KnownAps.Trimmed(list)) && StrongestFirst(KnownAps.Trimmed(list))
  {}

  lemma StaysInside(list: seq<Scan>, ns: Scan, k: nat)
    requires k < |list| && list[k].key != ns.key
    requires KnownAps.IndexOf(list, ns.key) < |list| || k < MAX_APS - 1
    ensures list[k] in KnownAps.Inserted(list, ns)
  {
    var after, i := KnownAps.Inserted(list, ns), KnownAps.IndexOf(list, ns.key);
    if i < |list| {
      assert after[k] == list[k];
    } else {
      assert after[k + 1] == list[k];
    }
  }

  lemma WasInside(list: seq<Scan>, ns: Scan, t: Scan) returns (j: nat)
    requires t in KnownAps.Inserted(list, ns) && t.key != ns.key
    ensures j < |list| && list[j] == t && (KnownAps.IndexOf(list, ns.key) < |list| || j < MAX_APS - 1)
  {
    var after, i := KnownAps.Inserted(list, ns), KnownAps.IndexOf(list, ns.key);
    j :| j < |after| && after[j] == t;
    j := if i < |list| then j else j - 1;
  }

  /** Only the weakest entry makes room for a new one. */
  lemma Weakest(list: seq<Scan>, ns: Scan, sorted: seq<Scan>)
    requires |list| <= MAX_APS && Usable(list) && StrongestFirst(list) && Usable(sorted)
    requires forall s :: s in sorted <==> s in KnownAps.Inserted(list, ns)
    ensures forall s, t :: s in list && s.key != ns.key && s !in sorted && t in sorted && t.key != ns.key ==>
      |list| == MAX_APS && Average(t) >= Average(s)
  {
    hide Average, KnownAps.Inserted;
    forall s, t | s in list && s.key != ns.key && s !in sorted && t in sorted && t.key != ns.key
      ensures |list| == MAX_APS && Average(t) >= Average(s)
    {
      var k: nat :| k < |list| && list[k] == s;
      if KnownAps.IndexOf(list, ns.key) < |list| || k < MAX_APS - 1 { StaysInside(list, ns, k); }
      var j := WasInside(list, ns, t);
    }
  }
}
