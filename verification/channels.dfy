/** The static channel table, the filter that finds a chart's active
    channels, and the de-duplication by unordered gate pair. */
module Channels {
  import opened Centers
  import opened Decimal
  import opened Collections
  import opened Wrappers
  import opened Dedup

  /** One row of the table: a gate pair joining two centers. */
  datatype ChannelDef = ChannelDef(gateA: nat, gateB: nat, centerA: Center, centerB: Center)

  function Lo(ch: ChannelDef): nat {
    if ch.gateA < ch.gateB then ch.gateA else ch.gateB
  }

  function Hi(ch: ChannelDef): nat {
    if ch.gateA < ch.gateB then ch.gateB else ch.gateA
  }

  /** The channel's text key, "{smaller gate}-{larger gate}". */
  function Key(ch: ChannelDef): string {
    if ch.gateA < ch.gateB then NatToString(ch.gateA) + "-" + NatToString(ch.gateB)
    else NatToString(ch.gateB) + "-" + NatToString(ch.gateA)
  }

  /** The table, in the program's order (39 rows). */
  function AllChannels(): seq<ChannelDef> {
    [
      ChannelDef(64, 47, Head, Ajna),
      ChannelDef(61, 24, Head, Ajna),
      ChannelDef(63, 4, Head, Ajna),
      ChannelDef(17, 62, Ajna, Throat),
      ChannelDef(43, 23, Ajna, Throat),
      ChannelDef(11, 56, Ajna, Throat),
      ChannelDef(7, 31, G, Throat),
      ChannelDef(1, 8, G, Throat),
      ChannelDef(13, 33, G, Throat),
      ChannelDef(10, 20, G, Throat),
      ChannelDef(16, 48, Throat, Spleen),
      ChannelDef(20, 57, Throat, Spleen),
      ChannelDef(20, 34, Throat, Sacral),
      ChannelDef(12, 22, Throat, SolarPlexus),
      ChannelDef(35, 36, Throat, SolarPlexus),
      ChannelDef(45, 21, Throat, Heart),
      ChannelDef(2, 14, G, Sacral),
      ChannelDef(10, 34, G, Sacral),
      ChannelDef(25, 51, G, Heart),
      ChannelDef(15, 5, G, Sacral),
      ChannelDef(46, 29, G, Sacral),
      ChannelDef(26, 44, Heart, Spleen),
      ChannelDef(40, 37, Heart, SolarPlexus),
      ChannelDef(59, 6, Sacral, SolarPlexus),
      ChannelDef(27, 50, Sacral, Spleen),
      ChannelDef(34, 57, Sacral, Spleen),
      ChannelDef(5, 15, Sacral, G),
      ChannelDef(14, 2, Sacral, G),
      ChannelDef(29, 46, Sacral, G),
      ChannelDef(42, 53, Sacral, Root),
      ChannelDef(3, 60, Sacral, Root),
      ChannelDef(9, 52, Sacral, Root),
      ChannelDef(57, 20, Spleen, Throat),
      ChannelDef(18, 58, Spleen, Root),
      ChannelDef(28, 38, Spleen, Root),
      ChannelDef(32, 54, Spleen, Root),
      ChannelDef(39, 55, Root, SolarPlexus),
      ChannelDef(41, 30, Root, SolarPlexus),
      ChannelDef(19, 49, Root, SolarPlexus)
    ]
  }

  /** Both gates of a row are wired to the centers the row names. */
  predicate WellPlaced(ch: ChannelDef) {
    ch.gateA in GatesFor(ch.centerA) && ch.gateB in GatesFor(ch.centerB)
  }

  /** Centers touched by a list of rows. */
  function Endpoints(chs: seq<ChannelDef>): set<Center> {
    (set ch | ch in chs :: ch.centerA) + (set ch | ch in chs :: ch.centerB)
  }

  /** Two rows share a key exactly when they join the same unordered gate pair;
      in particular swapping a row's two gates leaves its key unchanged. */
  lemma KeyIdentifiesGatePair(a: ChannelDef, b: ChannelDef)
    ensures Key(a) == Key(b) <==> Lo(a) == Lo(b) && Hi(a) == Hi(b)
    ensures Key(a) == Key(b) <==> {a.gateA, a.gateB} == {b.gateA, b.gateB}
  {
    if Key(a) == Key(b) {
      DigitsExclude(NatToString(Lo(a)), '-');
      DigitsExclude(NatToString(Lo(b)), '-');
      JoinedPartsUnique(NatToString(Lo(a)), NatToString(Hi(a)), NatToString(Lo(b)), NatToString(Hi(b)), '-');
      NatToStringInjective(Lo(a), Lo(b));
      NatToStringInjective(Hi(a), Hi(b));
    }
    if {a.gateA, a.gateB} == {b.gateA, b.gateB} {
      assert a.gateA in {b.gateA, b.gateB} && a.gateB in {b.gateA, b.gateB};
      assert b.gateA in {a.gateA, a.gateB} && b.gateB in {a.gateA, a.gateB};
    }
  }

  lemma KeySymmetric(ch: ChannelDef)
    ensures Key(ch) == Key(ChannelDef(ch.gateB, ch.gateA, ch.centerB, ch.centerA))
  {
    KeyIdentifiesGatePair(ch, ChannelDef(ch.gateB, ch.gateA, ch.centerB, ch.centerA));
  }

  /** Well-placed rows over the same unordered gate pair (by
      `KeyIdentifiesGatePair`, rows with one key) join the same two
      centers. */
  lemma SamePairSameCenters(a: ChannelDef, b: ChannelDef)
    requires WellPlaced(a) && WellPlaced(b)
    requires {a.gateA, a.gateB} == {b.gateA, b.gateB}
    ensures {a.centerA, a.centerB} == {b.centerA, b.centerB}
  {
    assert CenterOf(a.gateA) == Some(a.centerA) && CenterOf(a.gateB) == Some(a.centerB);
    assert CenterOf(b.gateA) == Some(b.centerA) && CenterOf(b.gateB) == Some(b.centerB);
  }

  /** The rows whose two gates are both among `active`, in table order. */
  function ActiveRows(rows: seq<ChannelDef>, active: seq<nat>): (r: seq<ChannelDef>)
    ensures forall ch :: ch in r <==> ch in rows && ch.gateA in active && ch.gateB in active
    ensures IsSubsequence(r, rows)
  {
    if |rows| == 0 then []
    else
      var rest := ActiveRows(rows[1..], active);
      if rows[0].gateA in active && rows[0].gateB in active then [rows[0]] + rest
      else SkipHead(rows[0], rest, rows[1..]); rest
  }

  /** `find_active_channels`: the table rows whose two gates are both active. */
  function FindActiveChannels(active: seq<nat>): (r: seq<ChannelDef>)
    ensures forall ch :: ch in r <==> ch in AllChannels() && ch.gateA in active && ch.gateB in active
    ensures IsSubsequence(r, AllChannels())
  {
    ActiveRows(AllChannels(), active)
  }

  /** `unique_channels`: the first row for every key, in input order. */
  function UniqueChannels(chs: seq<ChannelDef>): (r: seq<ChannelDef>)
    ensures IsSubsequence(r, chs)
    ensures forall i, j | 0 <= i < j < |r| :: Key(r[i]) != Key(r[j])
    ensures KeysOf(r, Key) == KeysOf(chs, Key)
  {
    DedupFrom(chs, Key, {})
  }

  /** A kept row is the first row of the input with its key. */
  lemma UniqueKeepsFirst(chs: seq<ChannelDef>, x: ChannelDef, j: nat)
    requires x in UniqueChannels(chs)
    requires j < |chs| && Key(chs[j]) == Key(x)
    ensures x in chs[..j + 1]
  {
    KeepsFirst(chs, Key, {}, x, j);
  }

  /** `unique_channels` is idempotent. */
  lemma UniqueIdempotent(chs: seq<ChannelDef>)
    ensures UniqueChannels(UniqueChannels(chs)) == UniqueChannels(chs)
  {
    DedupOfDistinct(UniqueChannels(chs), Key, {});
  }

  /** A row's unordered gate pair as one number: smaller gate * 100 + larger gate. */
  function PairCode(ch: ChannelDef): int {
    Lo(ch) * 100 + Hi(ch)
  }

  lemma PairCodeIdentifiesKey(a: ChannelDef, b: ChannelDef)
    requires Hi(a) < 100 && Hi(b) < 100
    ensures Key(a) == Key(b) <==> PairCode(a) == PairCode(b)
  {
    KeyIdentifiesGatePair(a, b);
    PairDigits(Lo(a), Hi(a), Lo(b), Hi(b));
  }

  lemma PairDigits(l1: int, h1: int, l2: int, h2: int)
    requires 0 <= h1 < 100 && 0 <= h2 < 100
    ensures l1 * 100 + h1 == l2 * 100 + h2 <==> l1 == l2 && h1 == h2
  {
  }

  /** Index of the first table row with a given pair code (-1 if none). */
  function FirstRowWithCode(c: int): int {
    if c == 4764 then 0 else if c == 2461 then 1 else if c == 463 then 2 else if c == 1762 then 3
    else if c == 2343 then 4 else if c == 1156 then 5 else if c == 731 then 6 else if c == 108 then 7
    else if c == 1333 then 8 else if c == 1020 then 9 else if c == 1648 then 10 else if c == 2057 then 11
    else if c == 2034 then 12 else if c == 1222 then 13 else if c == 3536 then 14 else if c == 2145 then 15
    else if c == 214 then 16 else if c == 1034 then 17 else if c == 2551 then 18 else if c == 515 then 19
    else if c == 2946 then 20 else if c == 2644 then 21 else if c == 3740 then 22 else if c == 659 then 23
    else if c == 2750 then 24 else if c == 3457 then 25 else if c == 4253 then 29 else if c == 360 then 30
    else if c == 952 then 31 else if c == 1858 then 33 else if c == 2838 then 34 else if c == 3254 then 35
    else if c == 3955 then 36 else if c == 3041 then 37 else if c == 1949 then 38 else -1
  }

  /** Where each table row's pair first occurs: rows 26, 27, 28 and 32 repeat
      rows 19, 16, 20 and 11; every other row is the first with its pair. */
  function FirstOccurrence(i: int): int {
    if i == 26 then 19 else if i == 27 then 16 else if i == 28 then 20 else if i == 32 then 11 else i
  }

  lemma TableCodesA()
    ensures |AllChannels()| == 39
    ensures forall i | 0 <= i < 20 ::
              && Hi(AllChannels()[i]) < 100
              && FirstRowWithCode(PairCode(AllChannels()[i])) == FirstOccurrence(i)
  {
  }

  lemma TableCodesB()
    ensures |AllChannels()| == 39
    ensures forall i | 20 <= i < 39 ::
              && Hi(AllChannels()[i]) < 100
              && FirstRowWithCode(PairCode(AllChannels()[i])) == FirstOccurrence(i)
  {
  }

  lemma TableRepeats()
    ensures |AllChannels()| == 39
    ensures forall i | 0 <= i < 39 :: PairCode(AllChannels()[i]) == PairCode(AllChannels()[FirstOccurrence(i)])
  {
  }

  /** Two table rows share a key exactly when they repeat the same first row. */
  lemma TableKeyClasses()
    ensures |AllChannels()| == 39
    ensures forall i, j | 0 <= i < 39 && 0 <= j < 39 ::
              Key(AllChannels()[i]) == Key(AllChannels()[j]) <==> FirstOccurrence(i) == FirstOccurrence(j)
  {
    TableCodesA();
    TableCodesB();
    TableRepeats();
    var t := AllChannels();
    forall i, j | 0 <= i < 39 && 0 <= j < 39
      ensures Key(t[i]) == Key(t[j]) <==> FirstOccurrence(i) == FirstOccurrence(j)
    {
      PairCodeIdentifiesKey(t[i], t[j]);
      assert PairCode(t[i]) == PairCode(t[FirstOccurrence(i)]);
      assert PairCode(t[j]) == PairCode(t[FirstOccurrence(j)]);
    }
  }

  /** Rows whose key classes are the table's. */
  predicate KeyClassesOfTable<T, K(==)>(t: seq<T>, key: T -> K) {
    && |t| == 39
    && forall i, j | 0 <= i < 39 && 0 <= j < 39 :: key(t[i]) == key(t[j]) <==> FirstOccurrence(i) == FirstOccurrence(j)
  }

  /** De-duplicating rows with the table's key classes keeps all but rows
      26, 27, 28 and 32. */
  lemma DropTableRepeats<T, K>(t: seq<T>, key: T -> K)
    requires KeyClassesOfTable(t, key)
    ensures DedupFrom(t, key, {}) == t[..26] + t[29..32] + t[33..]
  {
    DropRows26To28(t, key);
    DropRow32(t, key);
    KeptRowsDistinct(t, key);
    DedupOfDistinct(t[..26] + t[29..32] + t[33..], key, {});
  }

  /** Rows 26-28 repeat rows 19, 16 and 20. */
  lemma DropRows26To28<T, K>(t: seq<T>, key: T -> K)
    requires KeyClassesOfTable(t, key)
    ensures DedupFrom(t, key, {}) == DedupFrom(t[..26] + t[29..], key, {})
  {
    var a := t[..26];
    var m := t[26..29];
    var b := t[29..];
    assert t == a + m + b;
    assert KeysOf(m, key) <= KeysOf(a, key) by {
      assert t[19] in a && t[16] in a && t[20] in a;
      assert FirstOccurrence(26) == FirstOccurrence(19);
      assert FirstOccurrence(27) == FirstOccurrence(16);
      assert FirstOccurrence(28) == FirstOccurrence(20);
      forall x | x in m ensures key(x) in KeysOf(a, key) {
        assert x == t[26] || x == t[27] || x == t[28];
      }
    }
    DropRepeated(a, m, b, key, {});
  }

  /** Row 32 repeats row 11. */
  lemma DropRow32<T, K>(t: seq<T>, key: T -> K)
    requires KeyClassesOfTable(t, key)
    ensures DedupFrom(t[..26] + t[29..], key, {}) == DedupFrom(t[..26] + t[29..32] + t[33..], key, {})
  {
    var a2 := t[..26] + t[29..32];
    var m2 := [t[32]];
    var b2 := t[33..];
    assert t[..26] + t[29..] == a2 + m2 + b2;
    assert KeysOf(m2, key) <= KeysOf(a2, key) by {
      assert t[11] in a2;
      assert FirstOccurrence(32) == FirstOccurrence(11);
    }
    DropRepeated(a2, m2, b2, key, {});
  }

  /** The rows left over all have different keys. */
  lemma KeptRowsDistinct<T, K>(t: seq<T>, key: T -> K)
    requires KeyClassesOfTable(t, key)
    ensures DistinctKeys(t[..26] + t[29..32] + t[33..], key)
  {
    var u := t[..26] + t[29..32] + t[33..];
    forall i, j | 0 <= i < j < |u| ensures key(u[i]) != key(u[j]) {
      var ti := if i < 26 then i else if i < 29 then i + 3 else i + 4;
      var tj := if j < 26 then j else if j < 29 then j + 3 else j + 4;
      assert u[i] == t[ti] && u[j] == t[tj];
      assert FirstOccurrence(ti) == ti && FirstOccurrence(tj) == tj;
    }
  }

  /** The table has 39 rows but only 35 distinct keys: de-duplication drops
      exactly rows 26, 27, 28 and 32, which repeat the pairs 5-15, 2-14,
      29-46 and 20-57. */
  lemma TableUniqueRows()
    ensures |AllChannels()| == 39
    ensures UniqueChannels(AllChannels())
         == AllChannels()[..26] + AllChannels()[29..32] + AllChannels()[33..]
    ensures |UniqueChannels(AllChannels())| == 35
  {
    TableKeyClasses();
    DropTableRepeats(AllChannels(), Key);
  }

  lemma RowsWellPlacedA()
    ensures |AllChannels()| == 39
    ensures forall i | 0 <= i < 10 :: WellPlaced(AllChannels()[i])
  {
  }

  lemma RowsWellPlacedB()
    ensures |AllChannels()| == 39
    ensures forall i | 10 <= i < 20 :: WellPlaced(AllChannels()[i])
  {
  }

  lemma RowsWellPlacedC()
    ensures |AllChannels()| == 39
    ensures forall i | 20 <= i < 30 :: WellPlaced(AllChannels()[i])
  {
  }

  lemma RowsWellPlacedD()
    ensures |AllChannels()| == 39
    ensures forall i | 30 <= i < 39 :: WellPlaced(AllChannels()[i])
  {
  }

  /** In every row the gates sit in the centers the row names. */
  lemma TableRowsWellPlaced()
    ensures forall ch | ch in AllChannels() :: WellPlaced(ch)
  {
    RowsWellPlacedA();
    RowsWellPlacedB();
    RowsWellPlacedC();
    RowsWellPlacedD();
  }

  /** Every input row has a row with its key among the kept ones. */
  lemma KeptRepresentative(chs: seq<ChannelDef>, ch: ChannelDef) returns (y: ChannelDef)
    requires ch in chs
    ensures y in UniqueChannels(chs) && y in chs && Key(y) == Key(ch)
  {
    var r := UniqueChannels(chs);
    assert Key(ch) in KeysOf(chs, Key);
    y :| y in r && Key(y) == Key(ch);
    SubsequenceMembership(r, chs, y);
  }

  /** For well-placed rows, de-duplication never changes which centers are
      touched. */
  lemma UniqueKeepsEndpoints(chs: seq<ChannelDef>)
    requires forall ch | ch in chs :: WellPlaced(ch)
    ensures Endpoints(UniqueChannels(chs)) == Endpoints(chs)
  {
    var r := UniqueChannels(chs);
    forall ch | ch in r ensures ch in chs {
      SubsequenceMembership(r, chs, ch);
    }
    forall ch | ch in chs ensures ch.centerA in Endpoints(r) && ch.centerB in Endpoints(r) {
      var y := KeptRepresentative(chs, ch);
      KeyIdentifiesGatePair(ch, y);
      SamePairSameCenters(ch, y);
      assert ch.centerA in {y.centerA, y.centerB};
      assert ch.centerB in {y.centerA, y.centerB};
    }
  }
}
