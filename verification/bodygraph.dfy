/** Deriving the body graph of a chart: the active gates, the defined
    centers, the type with its throat-to-motor search, the authority, the
    profile's angle and the incarnation-cross lookup. */
module BodyGraph {
  import opened Wrappers
  import opened Collections
  import opened Decimal
  import opened Centers
  import opened Channels
  import Wheel

  // ---------------------------------------------------------------------
  // Active gates

  /** Adds `x` to a strictly ascending list, keeping it strictly ascending. */
  function Insert(x: int, s: seq<int>): (r: seq<int>)
    requires StrictlyAscending(s)
    ensures StrictlyAscending(r)
    ensures forall y :: y in r <==> y == x || y in s
  {
    if |s| == 0 then [x]
    else if x < s[0] then [x] + s
    else if x == s[0] then s
    else
      var rest := Insert(x, s[1..]);
      assert forall y | y in rest :: s[0] < y;
      ConsAscending(s[0], rest);
      [s[0]] + rest
  }

  lemma ConsAscending(h: int, s: seq<int>)
    requires StrictlyAscending(s)
    requires forall y | y in s :: h < y
    ensures StrictlyAscending([h] + s)
  {
    var r := [h] + s;
    forall i, j | 0 <= i < j < |r| ensures r[i] < r[j] {
      assert r[j] == s[j - 1] && r[j] in s;
      if i > 0 {
        assert r[i] == s[i - 1];
      }
    }
  }

  /** `sort` followed by `dedup`: the elements of `s` in strictly ascending
      order. */
  function SortDedup(s: seq<int>): (r: seq<int>)
    ensures StrictlyAscending(r)
    ensures forall y :: y in r <==> y in s
  {
    if |s| == 0 then []
    else
      assert s == s[..|s| - 1] + [s[|s| - 1]];
      Insert(s[|s| - 1], SortDedup(s[..|s| - 1]))
  }

  /** A set of integers has one strictly ascending listing, so any sort
      followed by removal of adjacent repeats yields `SortDedup`. */
  lemma {:induction false} AscendingListingUnique(a: seq<int>, b: seq<int>)
    requires StrictlyAscending(a) && StrictlyAscending(b)
    requires forall y :: y in a <==> y in b
    ensures a == b
  {
    if |a| == 0 {
      HeadIsMember(b);
    } else {
      assert a[0] in a && b[0] in b;
      assert a[0] in b && b[0] in a;
      assert a[0] == b[0];
      forall y ensures y in a[1..] <==> y in b[1..] {
        if y in a[1..] {
          assert y in b && y != b[0];
        }
        if y in b[1..] {
          assert y in a && y != a[0];
        }
      }
      AscendingListingUnique(a[1..], b[1..]);
      assert a == [a[0]] + a[1..] && b == [b[0]] + b[1..];
    }
  }

  function GatesOf(ps: seq<Wheel.GatePosition>): (gs: seq<int>)
    ensures |gs| == |ps| && forall i | 0 <= i < |ps| :: gs[i] == ps[i].gate
  {
    seq(|ps|, i requires 0 <= i < |ps| => ps[i].gate as int)
  }

  /** The active gates of a chart: every gate of a personality or design
      position, once, in ascending order. */
  function ActiveGates(pers: seq<Wheel.GatePosition>, des: seq<Wheel.GatePosition>): (r: seq<nat>)
    ensures StrictlyAscending(r)
    ensures forall g :: g in r <==> (exists i | 0 <= i < |pers| :: pers[i].gate == g)
                                    || (exists i | 0 <= i < |des| :: des[i].gate == g)
  {
    var all := GatesOf(pers) + GatesOf(des);
    var sorted := SortDedup(all);
    assert forall g :: g in all <==> g in GatesOf(pers) || g in GatesOf(des);
    assert forall i | 0 <= i < |sorted| :: sorted[i] in all;
    sorted
  }

  // ---------------------------------------------------------------------
  // Defined centers

  /** `find_defined_centers`: both centers of every channel in the list. */
  function FindDefinedCenters(chs: seq<ChannelDef>): (r: set<Center>)
    ensures forall c :: c in r <==> exists i | 0 <= i < |chs| :: c == chs[i].centerA || c == chs[i].centerB
  {
    if |chs| == 0 then {}
    else
      var last := chs[|chs| - 1];
      var before := FindDefinedCenters(chs[..|chs| - 1]);
      assert forall i | 0 <= i < |chs| - 1 :: chs[..|chs| - 1][i] == chs[i];
      before + {last.centerA, last.centerB}
  }

  /** The defined centers are the endpoints of the channels. */
  lemma DefinedCentersAreEndpoints(chs: seq<ChannelDef>)
    ensures FindDefinedCenters(chs) == Endpoints(chs)
  {
    forall c | c in Endpoints(chs) ensures c in FindDefinedCenters(chs) {
      var i :| 0 <= i < |chs| && (chs[i].centerA == c || chs[i].centerB == c);
    }
  }

  /** A chart with no channels defines no center, and conversely. */
  lemma NothingDefinedIffNoChannels(chs: seq<ChannelDef>)
    ensures FindDefinedCenters(chs) == {} <==> |chs| == 0
  {
    if |chs| > 0 {
      assert chs[0].centerA in FindDefinedCenters(chs);
    }
  }

  /** The channels of a chart: active table rows, one per gate pair. */
  function ChartChannels(active: seq<nat>): seq<ChannelDef> {
    UniqueChannels(FindActiveChannels(active))
  }

  /** Removing the duplicate rows never changes the defined centers, since
      rows with the same gate pair join the same two centers. */
  lemma DedupKeepsDefinedCenters(active: seq<nat>)
    ensures FindDefinedCenters(ChartChannels(active)) == FindDefinedCenters(FindActiveChannels(active))
  {
    var rows := FindActiveChannels(active);
    TableRowsWellPlaced();
    UniqueKeepsEndpoints(rows);
    DefinedCentersAreEndpoints(rows);
    DefinedCentersAreEndpoints(ChartChannels(active));
  }

  // ---------------------------------------------------------------------
  // Throat-to-motor search

  /** A channel joins `a` to `b`, in either direction. */
  predicate Link(ch: ChannelDef, a: Center, b: Center) {
    (ch.centerA == a && ch.centerB == b) || (ch.centerB == a && ch.centerA == b)
  }

  /** The search may move from `a` to `b`: some channel joins them and `b`
      is defined. */
  predicate Step(defined: set<Center>, chs: seq<ChannelDef>, a: Center, b: Center) {
    b in defined && exists k | 0 <= k < |chs| :: Link(chs[k], a, b)
  }

  predicate IsWalk(defined: set<Center>, chs: seq<ChannelDef>, w: seq<Center>) {
    |w| >= 1 && forall i | 0 <= i < |w| - 1 :: Step(defined, chs, w[i], w[i + 1])
  }

  /** `c` can be reached from Throat by steps of the search. */
  ghost predicate ReachableFromThroat(defined: set<Center>, chs: seq<ChannelDef>, c: Center) {
    exists w :: IsWalk(defined, chs, w) && w[0] == Throat && w[|w| - 1] == c
  }

  /** The reference meaning of a motor-to-throat connection: Throat is
      defined and a motor other than Throat is reachable from it. */
  ghost predicate MotorReachesThroat(defined: set<Center>, chs: seq<ChannelDef>) {
    Throat in defined && exists c :: c != Throat && IsMotor(c) && ReachableFromThroat(defined, chs, c)
  }

  lemma ExtendWalk(defined: set<Center>, chs: seq<ChannelDef>, a: Center, b: Center)
    requires ReachableFromThroat(defined, chs, a) && Step(defined, chs, a, b)
    ensures ReachableFromThroat(defined, chs, b)
  {
    var w :| IsWalk(defined, chs, w) && w[0] == Throat && w[|w| - 1] == a;
    var w' := w + [b];
    assert IsWalk(defined, chs, w');
  }

  /** A set holding the start of a walk and closed under steps holds the
      whole walk. */
  lemma {:induction false} WalkStaysInside(defined: set<Center>, chs: seq<ChannelDef>, w: seq<Center>, s: set<Center>)
    requires IsWalk(defined, chs, w) && w[0] in s
    requires forall a, b | a in s && Step(defined, chs, a, b) :: b in s
    ensures w[|w| - 1] in s
    decreases |w|
  {
    if |w| > 1 {
      var p := w[..|w| - 1];
      assert IsWalk(defined, chs, p);
      WalkStaysInside(defined, chs, p, s);
      assert Step(defined, chs, w[|w| - 2], w[|w| - 1]);
    }
  }

  /** `has_motor_to_throat_connection`: a depth-first search from Throat
      over channels into defined centers, stopping at the first motor. Each
      center is expanded at most once. */
  method HasMotorToThroatConnection(defined: set<Center>, chs: seq<ChannelDef>) returns (found: bool)
    ensures found <==> MotorReachesThroat(defined, chs)
    ensures Throat !in defined ==> !found
  {
    if Throat !in defined {
      return false;
    }
    var visited: set<Center> := {};
    var stack := [Throat];
    assert IsWalk(defined, chs, [Throat]);
    while |stack| > 0
      invariant Throat in visited || Throat in stack
      invariant forall c | c in visited :: ReachableFromThroat(defined, chs, c)
      invariant forall c | c in stack :: ReachableFromThroat(defined, chs, c)
      invariant forall c | c in visited :: c == Throat || !IsMotor(c)
      invariant forall a, b | a in visited && Step(defined, chs, a, b) :: b in visited || b in stack
      decreases AllSet() - visited, |stack|
    {
      var current := stack[|stack| - 1];
      assert ReachableFromThroat(defined, chs, current);
      stack := stack[..|stack| - 1];
      if current in visited {
        continue;
      }
      EveryCenterListed(current);
      visited := visited + {current};
      if current != Throat && IsMotor(current) {
        return true;
      }
      stack := PushNeighbours(defined, chs, current, stack);
    }
    forall c | ReachableFromThroat(defined, chs, c) ensures c in visited {
      var w :| IsWalk(defined, chs, w) && w[0] == Throat && w[|w| - 1] == c;
      WalkStaysInside(defined, chs, w, visited);
    }
    return false;
  }

  /** The inner loop of the search: for every channel at `current`, push
      the center at its other end when that center is defined. Every center
      pushed is reachable, nothing already on the stack is lost, and every
      step out of `current` ends up on the stack. */
  method PushNeighbours(defined: set<Center>, chs: seq<ChannelDef>, current: Center, stack: seq<Center>)
    returns (pushed: seq<Center>)
    requires ReachableFromThroat(defined, chs, current)
    requires forall c | c in stack :: ReachableFromThroat(defined, chs, c)
    ensures forall c | c in stack :: c in pushed
    ensures forall c | c in pushed :: ReachableFromThroat(defined, chs, c)
    ensures forall b | Step(defined, chs, current, b) :: b in pushed
  {
    pushed := stack;
    var j := 0;
    while j < |chs|
      invariant 0 <= j <= |chs|
      invariant forall c | c in stack :: c in pushed
      invariant forall c | c in pushed :: ReachableFromThroat(defined, chs, c)
      invariant forall k, b | 0 <= k < j && Link(chs[k], current, b) && b in defined :: b in pushed
    {
      var ch := chs[j];
      if ch.centerA == current && ch.centerB in defined {
        assert Step(defined, chs, current, ch.centerB);
        ExtendWalk(defined, chs, current, ch.centerB);
        pushed := pushed + [ch.centerB];
      }
      if ch.centerB == current && ch.centerA in defined {
        assert Step(defined, chs, current, ch.centerA);
        ExtendWalk(defined, chs, current, ch.centerA);
        pushed := pushed + [ch.centerA];
      }
      j := j + 1;
    }
  }

  // ---------------------------------------------------------------------
  // Type and authority

  /** `determine_type`, first match wins: no defined center, Sacral with a
      motor-to-throat connection, Sacral alone, the connection alone,
      neither. */
  method DetermineType(defined: set<Center>, chs: seq<ChannelDef>) returns (key: string)
    ensures key == "reflector" <==> defined == {}
    ensures key == "manifesting_generator" <==> Sacral in defined && MotorReachesThroat(defined, chs)
    ensures key == "generator" <==> Sacral in defined && !MotorReachesThroat(defined, chs)
    ensures key == "manifestor" <==> defined != {} && Sacral !in defined && MotorReachesThroat(defined, chs)
    ensures key == "projector" <==> defined != {} && Sacral !in defined && !MotorReachesThroat(defined, chs)
  {
    var hasSacral := Sacral in defined;
    var motorToThroat := HasMotorToThroatConnection(defined, chs);
    if |defined| == 0 {
      key := "reflector";
    } else if hasSacral && motorToThroat {
      key := "manifesting_generator";
    } else if hasSacral {
      key := "generator";
    } else if motorToThroat {
      key := "manifestor";
    } else {
      key := "projector";
    }
  }

  /** The centers that decide authority, in priority order, with the
      authority each gives. */
  function AuthorityOrder(): seq<(Center, string)> {
    [(SolarPlexus, "emotional"), (Sacral, "sacral"), (Spleen, "splenic"),
     (Heart, "ego"), (G, "self_projected"), (Throat, "mental")]
  }

  /** `determine_authority`: the first defined center of the priority list
      decides; with none of them defined the authority is lunar. */
  function DetermineAuthority(defined: set<Center>): (key: string)
    ensures key == "lunar" <==> forall i | 0 <= i < |AuthorityOrder()| :: AuthorityOrder()[i].0 !in defined
    ensures key != "lunar" ==>
              exists i | 0 <= i < |AuthorityOrder()| ::
                && AuthorityOrder()[i].0 in defined
                && key == AuthorityOrder()[i].1
                && forall j | 0 <= j < i :: AuthorityOrder()[j].0 !in defined
  {
    assert AuthorityOrder()[0] == (SolarPlexus, "emotional") && AuthorityOrder()[1] == (Sacral, "sacral");
    assert AuthorityOrder()[2] == (Spleen, "splenic") && AuthorityOrder()[3] == (Heart, "ego");
    assert AuthorityOrder()[4] == (G, "self_projected") && AuthorityOrder()[5] == (Throat, "mental");
    if SolarPlexus in defined then "emotional"
    else if Sacral in defined then "sacral"
    else if Spleen in defined then "splenic"
    else if Heart in defined then "ego"
    else if G in defined then "self_projected"
    else if Throat in defined then "mental"
    else "lunar"
  }

  // ---------------------------------------------------------------------
  // Profile and incarnation cross

  /** The profile key "{personality Sun line}/{design Sun line}". */
  function ProfileKey(persLine: nat, desLine: nat): (key: string)
    ensures '/' in key
  {
    NatToString(persLine) + "/" + NatToString(desLine)
  }

  /** Different line pairs give different profile keys. */
  lemma ProfileKeyInjective(p: nat, d: nat, p': nat, d': nat)
    ensures ProfileKey(p, d) == ProfileKey(p', d') <==> p == p' && d == d'
  {
    if ProfileKey(p, d) == ProfileKey(p', d') {
      DigitsExclude(NatToString(p), '/');
      DigitsExclude(NatToString(p'), '/');
      JoinedPartsUnique(NatToString(p), NatToString(d), NatToString(p'), NatToString(d'), '/');
      NatToStringInjective(p, p');
      NatToStringInjective(d, d');
    }
  }

  /** The angle of the incarnation cross for a profile key. */
  function AngleFor(profileKey: string): (angle: string)
    ensures angle in {"right_angle", "juxtaposition", "left_angle"}
  {
    if profileKey in {"1/3", "1/4", "2/4", "2/5", "3/5", "3/6", "4/6"} then "right_angle"
    else if profileKey == "4/1" then "juxtaposition"
    else if profileKey in {"5/1", "5/2", "6/2", "6/3"} then "left_angle"
    else "right_angle"
  }

  /** For Sun lines 1..6: 4/1 is the juxtaposition, 5/1, 5/2, 6/2 and 6/3
      are left angles, and every other pair is a right angle. */
  lemma AngleOfLines(p: nat, d: nat)
    requires 1 <= p <= 6 && 1 <= d <= 6
    ensures AngleFor(ProfileKey(p, d))
            == if p == 4 && d == 1 then "juxtaposition"
               else if (p == 5 && d <= 2) || (p == 6 && 2 <= d <= 3) then "left_angle"
               else "right_angle"
  {
    assert ProfileKey(p, d) == [DigitChar(p), '/', DigitChar(d)];
  }

  /** Rust's `str::contains`: `part` occurs somewhere in `s`. */
  predicate Contains(s: string, part: string) {
    exists i | 0 <= i <= |s| - |part| :: OccursAt(s, part, i)
  }

  predicate OccursAt(s: string, part: string, i: int) {
    0 <= i <= |s| - |part| && s[i..i + |part|] == part
  }

  /** The index of the first key containing `part`. */
  function FirstContaining(keys: seq<string>, part: string): (r: Option<nat>)
    ensures r.Some? ==> r.value < |keys| && Contains(keys[r.value], part)
    ensures r.Some? ==> forall j | 0 <= j < r.value :: !Contains(keys[j], part)
    ensures r.None? ==> forall j | 0 <= j < |keys| :: !Contains(keys[j], part)
  {
    if |keys| == 0 then None
    else if Contains(keys[0], part) then Some(0)
    else
      match FirstContaining(keys[1..], part)
      case None => None
      case Some(i) => Some(i + 1)
  }

  /** `find_cross_key_in_db`, with the database's gate table as a map from
      gate id to that gate's cross keys: the first key containing the angle
      part, else the first key; nothing when the gate is unknown or has no
      crosses. */
  function FindCrossKey(gateCrosses: map<string, seq<string>>, sunGateId: string, anglePart: string): (r: Option<string>)
    ensures r.None? <==> sunGateId !in gateCrosses || |gateCrosses[sunGateId]| == 0
    ensures r.Some? ==> r.value in gateCrosses[sunGateId]
    ensures sunGateId in gateCrosses ==>
              var keys := gateCrosses[sunGateId];
              && ((exists j | 0 <= j < |keys| :: Contains(keys[j], anglePart)) ==>
                    exists i | 0 <= i < |keys| ::
                      && r == Some(keys[i]) && Contains(keys[i], anglePart)
                      && forall j | 0 <= j < i :: !Contains(keys[j], anglePart))
              && ((forall j | 0 <= j < |keys| :: !Contains(keys[j], anglePart)) && |keys| > 0 ==>
                    r == Some(keys[0]))
  {
    if sunGateId !in gateCrosses then None
    else
      var keys := gateCrosses[sunGateId];
      match FirstContaining(keys, anglePart)
      case Some(i) => Some(keys[i])
      case None => if |keys| > 0 then Some(keys[0]) else None
  }
}
