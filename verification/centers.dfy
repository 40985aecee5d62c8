/** The nine body-graph centers, which of them are motors, and the
    partition of the 64 gates among them. */
module Centers {
  import opened Wrappers
  import opened Collections

  datatype Center = Head | Ajna | Throat | G | Heart | Sacral | SolarPlexus | Spleen | Root

  /** Every center, in the program's display order. */
  function All(): (cs: seq<Center>)
    ensures |cs| == 9 && Distinct(cs)
  {
    [Head, Ajna, Throat, G, Heart, Sacral, SolarPlexus, Spleen, Root]
  }

  /** The same nine centers as a set. */
  function AllSet(): (s: set<Center>)
    ensures forall c | c in All() :: c in s
  {
    {Head, Ajna, Throat, G, Heart, Sacral, SolarPlexus, Spleen, Root}
  }

  /** `All()` and `AllSet()` leave no center out. */
  lemma EveryCenterListed(c: Center)
    ensures c in All() && c in AllSet()
  {
    match c
    case Head => case Ajna => case Throat => case G => case Heart =>
    case Sacral => case SolarPlexus => case Spleen => case Root =>
  }

  /** The Latin key under which a center's text is looked up. */
  function Key(c: Center): string {
    match c
    case Head => "head"
    case Ajna => "ajna"
    case Throat => "throat"
    case G => "g"
    case Heart => "heart"
    case Sacral => "sacral"
    case SolarPlexus => "solar_plexus"
    case Spleen => "splenic"
    case Root => "root"
  }

  /** Distinct centers have distinct lookup keys. */
  lemma KeyInjective(a: Center, b: Center)
    ensures Key(a) == Key(b) <==> a == b
  {
  }

  /** The four motors. */
  predicate IsMotor(c: Center) {
    c == Sacral || c == Heart || c == SolarPlexus || c == Root
  }

  lemma MotorCenters()
    ensures (set c | c in All() && IsMotor(c)) == {Sacral, Heart, SolarPlexus, Root}
    ensures !IsMotor(Throat)
  {
  }

  /** The gates that sit in a center. */
  function GatesFor(c: Center): seq<nat> {
    match c
    case Head => [64, 61, 63]
    case Ajna => [47, 24, 4, 17, 43, 11]
    case Throat => [62, 23, 56, 31, 8, 33, 20, 16, 12, 35, 45]
    case G => [7, 1, 13, 10, 2, 25, 15, 46]
    case Heart => [21, 51, 26, 40]
    case Sacral => [14, 34, 5, 29, 59, 27, 42, 3, 9]
    case SolarPlexus => [22, 36, 6, 37, 55, 30, 49]
    case Spleen => [48, 57, 44, 50, 32, 28, 18]
    case Root => [53, 60, 52, 19, 39, 41, 58, 38, 54]
  }

  /** All nine gate lists laid end to end, in `All()` order. */
  function AllGateLists(): seq<int> {
    GatesFor(Head) + GatesFor(Ajna) + GatesFor(Throat) + GatesFor(G) + GatesFor(Heart)
    + GatesFor(Sacral) + GatesFor(SolarPlexus) + GatesFor(Spleen) + GatesFor(Root)
  }

  /** The nine lists together hold each of the gates 1..64 exactly once. */
  lemma GateListsPartition()
    ensures |AllGateLists()| == 64
    ensures forall g :: g in AllGateLists() <==> 1 <= g <= 64
    ensures Distinct(AllGateLists())
  {
    var all := AllGateLists();
    assert forall g :: 1 <= g <= 64 ==> g in all;
    PermutationOfRange(all, 64);
  }

  /** Where a center's list starts inside `AllGateLists()`. */
  function Offset(c: Center): nat {
    match c
    case Head => 0
    case Ajna => 3
    case Throat => 9
    case G => 20
    case Heart => 28
    case Sacral => 32
    case SolarPlexus => 41
    case Spleen => 48
    case Root => 55
  }

  lemma ListInConcat(c: Center, i: nat)
    requires i < |GatesFor(c)|
    ensures Offset(c) + i < |AllGateLists()|
    ensures AllGateLists()[Offset(c) + i] == GatesFor(c)[i]
  {
    var all := AllGateLists();
    var prefix := GatesFor(Head) + GatesFor(Ajna) + GatesFor(Throat) + GatesFor(G) + GatesFor(Heart)
      + GatesFor(Sacral) + GatesFor(SolarPlexus) + GatesFor(Spleen);
    match c
    case Head =>
    case Ajna =>
    case Throat =>
    case G =>
    case Heart =>
    case Sacral =>
    case SolarPlexus =>
    case Spleen =>
    case Root => assert all == prefix + GatesFor(Root);
  }

  /** The lists of two different centers share no gate. */
  lemma GateListsDisjoint(c: Center, d: Center, g: int)
    requires c != d
    ensures !(g in GatesFor(c) && g in GatesFor(d))
  {
    if g in GatesFor(c) && g in GatesFor(d) {
      GateListsPartition();
      var i :| 0 <= i < |GatesFor(c)| && GatesFor(c)[i] == g;
      var j :| 0 <= j < |GatesFor(d)| && GatesFor(d)[j] == g;
      ListInConcat(c, i);
      ListInConcat(d, j);
      assert false;
    }
  }

  /** No list names a gate twice. */
  lemma GateListNoDuplicates(c: Center)
    ensures Distinct(GatesFor(c))
  {
    GateListsPartition();
    var l := GatesFor(c);
    forall i, j | 0 <= i < j < |l| ensures l[i] != l[j] {
      ListInConcat(c, i);
      ListInConcat(c, j);
    }
  }

  /** The center a gate sits in; None for numbers that are not gates. */
  function CenterOf(g: int): (r: Option<Center>)
    ensures r.None? <==> !(1 <= g <= 64)
    ensures forall c: Center :: r == Some(c) <==> g in GatesFor(c)
  {
    FirstHoldingIsUnique(g);
    FirstCenterHolding(g, All())
  }

  lemma FirstHoldingIsUnique(g: int)
    ensures var r := FirstCenterHolding(g, All());
      && (r.None? <==> !(1 <= g <= 64))
      && forall c: Center :: r == Some(c) <==> g in GatesFor(c)
  {
    var r := FirstCenterHolding(g, All());
    if r.Some? {
      InSomeList(r.value, g);
      forall c: Center ensures r == Some(c) <==> g in GatesFor(c) {
        if c != r.value {
          GateListsDisjoint(c, r.value, g);
        }
      }
    } else {
      NotInAnyList(g);
    }
  }

  lemma InSomeList(c: Center, g: int)
    requires g in GatesFor(c)
    ensures 1 <= g <= 64
  {
    assert g in AllGateLists() by {
      match c
      case Head => case Ajna => case Throat => case G => case Heart =>
      case Sacral => case SolarPlexus => case Spleen => case Root =>
    }
    GatesAreOneToSixtyFour();
  }

  lemma NotInAnyList(g: int)
    requires forall c | c in All() :: g !in GatesFor(c)
    ensures !(1 <= g <= 64)
    ensures forall c: Center :: g !in GatesFor(c)
  {
    forall c: Center ensures g !in GatesFor(c) {
      EveryCenterListed(c);
    }
    assert g !in AllGateLists();
    GatesAreOneToSixtyFour();
  }

  lemma GatesAreOneToSixtyFour()
    ensures forall g :: g in AllGateLists() <==> 1 <= g <= 64
  {
    GateListsPartition();
  }

  function FirstCenterHolding(g: int, cs: seq<Center>): (r: Option<Center>)
    ensures r.Some? ==> r.value in cs && g in GatesFor(r.value)
    ensures r.None? ==> forall c | c in cs :: g !in GatesFor(c)
  {
    if |cs| == 0 then None
    else if g in GatesFor(cs[0]) then Some(cs[0])
    else FirstCenterHolding(g, cs[1..])
  }
}
