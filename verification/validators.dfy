/** Validator sets, quorums, and the stake-weighted choice of a leader. */
module Validators {
  import opened Types
  import Bft
  import Sorting

  datatype Status = Active | Waiting | Jailed(untilEpoch: nat) | Tombstoned

  datatype StakeEntry = StakeEntry(pubkey: Bytes, stake: nat, status: Status, epochJoined: nat)

  datatype ValidatorSet = ValidatorSet(epoch: nat, validators: seq<StakeEntry>, totalStake: nat, quorumThreshold: nat)

  function Sum(stakes: seq<nat>): nat {
    if stakes == [] then 0 else stakes[0] + Sum(stakes[1..])
  }

  function Stakes(vs: seq<StakeEntry>): seq<nat> {
    seq(|vs|, i requires 0 <= i < |vs| => vs[i].stake)
  }

  predicate MoreStake(a: StakeEntry, b: StakeEntry) {
    a.stake >= b.stake
  }

  function OnlyActive(vs: seq<StakeEntry>): (r: seq<StakeEntry>)
    ensures forall v :: v in r <==> v in vs && v.status == Active
  {
    if vs == [] then []
    else
      assert vs == [vs[0]] + vs[1..];
      if vs[0].status == Active then [vs[0]] + OnlyActive(vs[1..]) else OnlyActive(vs[1..])
  }

  function SetOf(epoch: nat, vs: seq<StakeEntry>): ValidatorSet {
    ValidatorSet(epoch, vs, Sum(Stakes(vs)), |vs| * 2 / 3 + 1)
  }

  function NewSet(epoch: nat, entries: seq<StakeEntry>): ValidatorSet {
    SetOf(epoch, Sorting.Sort(MoreStake, OnlyActive(entries)))
  }

  // ------------------------------------------------------------------ quorums

  predicate HasQuorum(s: ValidatorSet, signedCount: nat) {
    signedCount >= s.quorumThreshold
  }

  predicate HasStakeQuorum(s: ValidatorSet, signedStake: nat) {
    signedStake * 3 > s.totalStake * 2
  }

  /** The stored threshold and the test of the vote state are the same quorum. */
  lemma QuorumIsTwoThirds(epoch: nat, entries: seq<StakeEntry>, voters: set<Bft.Id>)
    ensures var s := NewSet(epoch, entries);
            HasQuorum(s, |voters|) <==> Bft.IsQuorum(voters, |s.validators|)
  {
  }

  /** A stake quorum: less than a third of the stake did not sign. */
  lemma StakeQuorumIff(s: ValidatorSet, signed: nat, missing: nat)
    requires signed + missing == s.totalStake
    ensures HasStakeQuorum(s, signed) <==> 3 * missing < s.totalStake
  {
  }

  /** The stake of the validators whose indices are in `signers`. */
  function StakeOf(stakes: seq<nat>, signers: set<nat>): nat {
    if stakes == [] then 0
    else
      var n := |stakes| - 1;
      StakeOf(stakes[..n], signers) + if n in signers then stakes[n] else 0
  }

  lemma {:induction false} StakeOfCombined(stakes: seq<nat>, a: set<nat>, b: set<nat>)
    ensures StakeOf(stakes, a) + StakeOf(stakes, b) == StakeOf(stakes, a + b) + StakeOf(stakes, a * b)
    ensures StakeOf(stakes, a + b) <= Sum(stakes)
  {
    if stakes != [] {
      var n := |stakes| - 1;
      StakeOfCombined(stakes[..n], a, b);
      SumLast(stakes);
    }
  }

  lemma {:induction false} SumLast(stakes: seq<nat>)
    requires stakes != []
    ensures Sum(stakes) == Sum(stakes[..|stakes| - 1]) + stakes[|stakes| - 1]
  {
    if |stakes| > 1 {
      SumLast(stakes[1..]);
      assert stakes[1..][..|stakes| - 2] == stakes[..|stakes| - 1][1..];
    }
  }

  /** Two signer sets that each hold a stake quorum share validators with more than
      a third of the total stake. */
  lemma StakeQuorumsIntersect(epoch: nat, entries: seq<StakeEntry>, a: set<nat>, b: set<nat>)
    requires var s := NewSet(epoch, entries);
             HasStakeQuorum(s, StakeOf(Stakes(s.validators), a)) && HasStakeQuorum(s, StakeOf(Stakes(s.validators), b))
    ensures var s := NewSet(epoch, entries); 3 * StakeOf(Stakes(s.validators), a * b) > s.totalStake
  {
    StakeOfCombined(Stakes(NewSet(epoch, entries).validators), a, b);
  }

  // ------------------------------------------------------- weighted election

  /** The first index at which the running sum of stakes exceeds the target. */
  function Scan(stakes: seq<nat>, target: nat, cumulative: nat, i: nat): Option<nat>
    requires i <= |stakes|
    decreases |stakes| - i
  {
    if i == |stakes| then None
    else if target < cumulative + stakes[i] then Some(i)
    else Scan(stakes, target, cumulative + stakes[i], i + 1)
  }

  lemma {:induction false} SumTake(stakes: seq<nat>, i: nat)
    requires i < |stakes|
    ensures Sum(stakes[..i + 1]) == Sum(stakes[..i]) + stakes[i]
  {
    SumLast(stakes[..i + 1]);
    assert stakes[..i + 1][..i] == stakes[..i];
  }

  lemma {:induction false} ScanFinds(stakes: seq<nat>, target: nat, i: nat, k: nat)
    requires i <= |stakes| && Sum(stakes[..i]) <= target && k < |stakes|
    ensures Scan(stakes, target, Sum(stakes[..i]), i) == Some(k) <==>
              i <= k && Sum(stakes[..k]) <= target < Sum(stakes[..k + 1])
    decreases |stakes| - i
  {
    if i < |stakes| {
      SumTake(stakes, i);
      if target < Sum(stakes[..i + 1]) {
        if i < k {
          SumMonotone(stakes, i + 1, k);
        }
      } else {
        ScanFinds(stakes, target, i + 1, k);
      }
    }
  }

  lemma {:induction false} SumMonotone(stakes: seq<nat>, i: nat, k: nat)
    requires i <= k <= |stakes|
    ensures Sum(stakes[..i]) <= Sum(stakes[..k])
    decreases k - i
  {
    if i < k {
      SumTake(stakes, i);
      SumMonotone(stakes, i + 1, k);
    }
  }

  lemma {:induction false} ScanEnds(stakes: seq<nat>, target: nat, i: nat)
    requires i <= |stakes| && Sum(stakes[..i]) <= target
    ensures Scan(stakes, target, Sum(stakes[..i]), i).None? <==> target >= Sum(stakes)
    decreases |stakes| - i
  {
    if i < |stakes| {
      SumTake(stakes, i);
      SumMonotone(stakes, i + 1, |stakes|);
      assert stakes[..|stakes|] == stakes;
      if target >= Sum(stakes[..i + 1]) {
        ScanEnds(stakes, target, i + 1);
      }
    } else {
      assert stakes[..i] == stakes;
    }
  }

  /** The targets below the total stake that elect index k. */
  ghost function Electing(stakes: seq<nat>, k: nat): set<nat> {
    set t: nat | t < Sum(stakes) && Scan(stakes, t, 0, 0) == Some(k)
  }

  lemma {:induction false} RangeSize(s: set<nat>, a: nat, b: nat)
    requires a <= b && forall t: nat :: t in s <==> a <= t < b
    ensures |s| == b - a
    decreases b - a
  {
    if a == b {
      assert s == {};
    } else {
      RangeSize(s - {a}, a + 1, b);
    }
  }

  /** Proportional election: of the targets below the total stake, exactly as many
      elect a validator as it has stake; and every such target elects one, so the
      fallback after the loop is reached only when the total stake is zero. */
  lemma ProportionalElection(stakes: seq<nat>, k: nat)
    requires k < |stakes|
    ensures |Electing(stakes, k)| == stakes[k]
    ensures forall t: nat :: Scan(stakes, t, 0, 0).None? <==> t >= Sum(stakes)
  {
    SumTake(stakes, k);
    SumMonotone(stakes, k + 1, |stakes|);
    assert stakes[..|stakes|] == stakes && stakes[..0] == [];
    forall t: nat
      ensures t in Electing(stakes, k) <==> Sum(stakes[..k]) <= t < Sum(stakes[..k + 1])
      ensures Scan(stakes, t, 0, 0).None? <==> t >= Sum(stakes)
    {
      ScanFinds(stakes, t, 0, k);
      ScanEnds(stakes, t, 0);
    }
    RangeSize(Electing(stakes, k), Sum(stakes[..k]), Sum(stakes[..k + 1]));
  }

  /** The index `elect_leader` settles on, for the number read from the VRF output. */
  function ElectedIndex(s: ValidatorSet, random: nat): Option<nat> {
    if s.validators == [] then None
    else
      var found := Scan(Stakes(s.validators), random % (if s.totalStake == 0 then 1 else s.totalStake), 0, 0);
      if found.Some? then found else Some(0)
  }

  function Remainder(r: nat, total: nat): (m: nat)
    requires total > 0
    ensures m < total
  {
    r % total
  }

  /** The numbers of the window that leave a remainder in this range. */
  ghost function Remaining(total: nat, from: nat, lo: nat, hi: nat): set<nat>
    requires total > 0
  {
    set r: nat | from <= r < from + total && lo <= Remainder(r, total) < hi
  }

  lemma WindowMoves(total: nat, from: nat, lo: nat, hi: nat)
    requires total > 0
    ensures var v := Remaining(total, from, lo, hi);
            Remaining(total, from + 1, lo, hi)
            == if lo <= Remainder(from, total) < hi then v - {from} + {from + total} else v
  {
    RemainderShift(from, total);
    hide Remainder;
    var (v, w) := (Remaining(total, from, lo, hi), Remaining(total, from + 1, lo, hi));
    forall r: nat
      ensures r in w <==>
                if lo <= Remainder(from, total) < hi then r in v - {from} + {from + total} else r in v
    {
    }
  }

  lemma FirstWindow(total: nat, lo: nat, hi: nat)
    requires lo <= hi <= total && total > 0
    ensures |Remaining(total, 0, lo, hi)| == hi - lo
  {
    hide Remainder;
    var w := Remaining(total, 0, lo, hi);
    forall r: nat
      ensures r in w <==> lo <= r < hi
    {
      SmallRemainder(r, total);
    }
    RangeSize(w, lo, hi);
  }

  lemma {:induction false} WindowSize(total: nat, from: nat, lo: nat, hi: nat)
    requires lo <= hi <= total && total > 0
    ensures |Remaining(total, from, lo, hi)| == hi - lo
    decreases from
  {
    hide Remainder, Remaining;
    if from == 0 {
      FirstWindow(total, lo, hi);
    } else {
      WindowSize(total, from - 1, lo, hi);
      WindowMoves(total, from - 1, lo, hi);
      if lo <= Remainder(from - 1, total) < hi {
        Swapped(Remaining(total, from - 1, lo, hi), total, from - 1, lo, hi);
      }
    }
  }

  lemma Swapped(v: set<nat>, total: nat, first: nat, lo: nat, hi: nat)
    requires total > 0 && v == Remaining(total, first, lo, hi) && lo <= Remainder(first, total) < hi
    ensures |v - {first} + {first + total}| == |v|
  {
    hide Remainder;
    assert first in v && first + total !in v;
  }

  lemma SmallRemainder(r: nat, total: nat)
    requires total > 0
    ensures r < total ==> Remainder(r, total) == r
  {
  }

  lemma RemainderShift(r: nat, total: nat)
    requires total > 0
    ensures Remainder(r + total, total) == Remainder(r, total)
  {
    var (q, m) := (r / total, r % total);
    var (p, k) := ((r + total) / total, (r + total) % total);
    assert total * (q + 1) + m == total * p + k;
    if p < q + 1 {
      Grows(total, p, q + 1);
    } else if q + 1 < p {
      Grows(total, q + 1, p);
    }
  }

  lemma Grows(total: nat, p: nat, q: nat)
    requires p < q
    ensures total * p + total <= total * q
  {
    var d := q - p - 1;
    assert total * q == total * p + total + total * d;
    assert total * d >= 0;
  }

  /** Of any `totalStake` consecutive random numbers, exactly as many elect a validator
      as it has stake: the election is fair in the number read from the VRF output. */
  lemma FairElection(epoch: nat, entries: seq<StakeEntry>, from: nat, k: nat)
    requires var s := NewSet(epoch, entries); s.totalStake > 0 && k < |s.validators|
    ensures var s := NewSet(epoch, entries);
            |set random: nat | from <= random < from + s.totalStake && ElectedIndex(s, random) == Some(k)|
            == s.validators[k].stake
  {
    var s := NewSet(epoch, entries);
    var stakes := Stakes(s.validators);
    var (lo, hi) := (Sum(stakes[..k]), Sum(stakes[..k + 1]));
    SumTake(stakes, k);
    SumMonotone(stakes, k + 1, |stakes|);
    assert stakes[..|stakes|] == stakes && stakes[..0] == [];
    WindowSize(s.totalStake, from, lo, hi);
    forall random: nat
      ensures ElectedIndex(s, random) == Some(k) <==> lo <= Remainder(random, s.totalStake) < hi
    {
      ScanFinds(stakes, random % s.totalStake, 0, k);
      ScanEnds(stakes, random % s.totalStake, 0);
    }
    assert Remaining(s.totalStake, from, lo, hi)
        == set random: nat | from <= random < from + s.totalStake && ElectedIndex(s, random) == Some(k);
  }

  method ElectLeader(s: ValidatorSet, random: nat) returns (leader: Option<StakeEntry>)
    ensures ElectedIndex(s, random).None? <==> leader.None?
    ensures leader.Some? ==>
              ElectedIndex(s, random).value < |s.validators| && leader.value
                  == s.validators[ElectedIndex(s, random).value]
  {
    if s.validators == [] {
      return None;
    }
    var threshold := random % (if s.totalStake == 0 then 1 else s.totalStake);
    var cumulative: nat := 0;
    ghost var stakes := Stakes(s.validators);
    for i := 0 to |s.validators|
      invariant Scan(stakes, threshold, cumulative, i) == Scan(stakes, threshold, 0, 0)
    {
      cumulative := cumulative + s.validators[i].stake;
      if threshold < cumulative {
        return Some(s.validators[i]);
      }
    }
    return Some(s.validators[0]);
  }

  /** A validator without stake is never elected while anybody has stake. */
  lemma NoStakeNoElection(epoch: nat, entries: seq<StakeEntry>, random: nat)
    requires var s := NewSet(epoch, entries); s.validators != [] && s.totalStake > 0
    ensures var s := NewSet(epoch, entries);
            var i := ElectedIndex(s, random);
            i.Some? && i.value < |s.validators| && s.validators[i.value].stake > 0
  {
    var s := NewSet(epoch, entries);
    var stakes := Stakes(s.validators);
    var t := random % s.totalStake;
    ProportionalElection(stakes, 0);
    var i := ElectedIndex(s, random).value;
    ScanInRange(stakes, t, 0, 0);
    assert stakes[..0] == [];
    ScanFinds(stakes, t, 0, i);
    SumTake(stakes, i);
  }

  /** Without any stake the first of the set is elected, and nobody from an empty set. */
  lemma NoStakeElectsFirst(epoch: nat, entries: seq<StakeEntry>, random: nat)
    ensures var s := NewSet(epoch, entries);
            && (s.validators == [] <==> ElectedIndex(s, random) == None)
            && (s.validators != [] && s.totalStake == 0 ==> ElectedIndex(s, random) == Some(0))
  {
    var s := NewSet(epoch, entries);
    if s.validators != [] && s.totalStake == 0 {
      assert Stakes(s.validators)[..0] == [];
      ScanEnds(Stakes(s.validators), 0, 0);
    }
  }

  lemma {:induction false} ScanInRange(stakes: seq<nat>, target: nat, cumulative: nat, i: nat)
    requires i <= |stakes|
    ensures Scan(stakes, target, cumulative, i).Some? ==> i <= Scan(stakes, target, cumulative, i).value < |stakes|
    decreases |stakes| - i
  {
    if i < |stakes| {
      ScanInRange(stakes, target, cumulative + stakes[i], i + 1);
    }
  }

  // --------------------------------------------------------- leader selection

  datatype ValidatorState = ValidatorState(id: Bytes, ownStake: nat, delegatedStake: nat)

  function TotalStakes(vs: seq<ValidatorState>): seq<nat> {
    seq(|vs|, i requires 0 <= i < |vs| => vs[i].ownStake + vs[i].delegatedStake)
  }

  /** Byte strings in lexicographic order. */
  predicate LexLeq(a: Bytes, b: Bytes) {
    a == [] || (b != [] && (a[0] < b[0] || (a[0] == b[0] && LexLeq(a[1..], b[1..]))))
  }

  predicate ById(a: ValidatorState, b: ValidatorState) {
    LexLeq(a.id, b.id)
  }

  lemma {:induction false} LexTotal(a: Bytes, b: Bytes)
    ensures LexLeq(a, b) || LexLeq(b, a)
    ensures LexLeq(a, b) && LexLeq(b, a) ==> a == b
  {
    if a != [] && b != [] {
      LexTotal(a[1..], b[1..]);
      assert a == [a[0]] + a[1..] && b == [b[0]] + b[1..];
    }
  }

  lemma {:induction false} LexTransitive(a: Bytes, b: Bytes, c: Bytes)
    requires LexLeq(a, b) && LexLeq(b, c)
    ensures LexLeq(a, c)
  {
    if a != [] && a[0] == b[0] && b[0] == c[0] {
      LexTransitive(a[1..], b[1..], c[1..]);
    }
  }

  lemma ByIdOrders()
    ensures Sorting.TotalPreorder(ById)
  {
    forall a, b
      ensures ById(a, b) || ById(b, a)
    {
      LexTotal(a.id, b.id);
    }
    forall a, b, c | ById(a, b) && ById(b, c)
      ensures ById(a, c)
    {
      LexTransitive(a.id, b.id, c.id);
    }
  }

  predicate DistinctIds(vs: seq<ValidatorState>) {
    forall a, b :: a in vs && b in vs && a.id == b.id ==> a == b
  }

  function NewSelector(vs: seq<ValidatorState>): seq<ValidatorState> {
    Sorting.Sort(ById, vs)
  }

  /** Order independence: nodes that list the same validators, with distinct ids, in
      any two orders hold the same selector. */
  lemma SelectorIgnoresOrder(v: seq<ValidatorState>, w: seq<ValidatorState>)
    requires multiset(v) == multiset(w) && DistinctIds(v)
    ensures NewSelector(v) == NewSelector(w)
  {
    ByIdOrders();
    Sorting.SortSorts(ById, v);
    Sorting.SortSorts(ById, w);
    var s := NewSelector(v);
    forall x, y | x in s && y in s && ById(x, y) && ById(y, x)
      ensures x == y
    {
      LexTotal(x.id, y.id);
      assert x in multiset(s) && y in multiset(s);
      assert x in v && y in v;
    }
    Sorting.SortedIsUnique(ById, s, NewSelector(w));
  }

  /** The entries with this id, in the order they stand. */
  function OfId(id: Bytes, vs: seq<ValidatorState>): seq<ValidatorState> {
    if vs == [] then [] else (if vs[0].id == id then [vs[0]] else []) + OfId(id, vs[1..])
  }

  /** For every id, the entries with that id stand in the same order in both. */
  ghost predicate SameById(v: seq<ValidatorState>, w: seq<ValidatorState>) {
    forall id: Bytes :: OfId(id, v) == OfId(id, w)
  }

  lemma {:induction false} OfIdIsTie(z: ValidatorState, vs: seq<ValidatorState>)
    ensures Sorting.Tie(ById, z, vs) == OfId(z.id, vs)
  {
    if vs != [] {
      LexTotal(vs[0].id, z.id);
      OfIdIsTie(z, vs[1..]);
    }
  }

  /** Exactly: two listings give the same selector if and only if, for every id, their
      entries with that id are the same in the same order. */
  lemma SameSelectorIff(v: seq<ValidatorState>, w: seq<ValidatorState>)
    ensures NewSelector(v) == NewSelector(w) <==> SameById(v, w)
  {
    hide Sorting.Sort, Sorting.SameTies, SameById;
    ByIdOrders();
    Sorting.SameSortIff(ById, v, w);
    TiesAreIds(v, w);
  }

  lemma TiesAreIds(v: seq<ValidatorState>, w: seq<ValidatorState>)
    ensures Sorting.SameTies(ById, v, w) <==> SameById(v, w)
  {
    if Sorting.SameTies(ById, v, w) {
      forall id
        ensures OfId(id, v) == OfId(id, w)
      {
        var z := ValidatorState(id, 0, 0);
        OfIdIsTie(z, v);
        OfIdIsTie(z, w);
        assert Sorting.Tie(ById, z, v) == Sorting.Tie(ById, z, w);
      }
    } else if SameById(v, w) {
      forall z
        ensures Sorting.Tie(ById, z, v) == Sorting.Tie(ById, z, w)
      {
        OfIdIsTie(z, v);
        OfIdIsTie(z, w);
        assert OfId(z.id, v) == OfId(z.id, w);
      }
    }
  }

  /** The index that `select_leader` settles on: `word` and `number` are the parts
      of the seed read as a 32-bit and a 128-bit number. */
  function SelectedIndex(vs: seq<ValidatorState>, word: nat, number: nat): nat
    requires vs != []
  {
    var stakes := TotalStakes(vs);
    if Sum(stakes) == 0 then word % |vs|
    else
      var found := Scan(stakes, number % Sum(stakes), 0, 0);
      if found.Some? then found.value else |vs| - 1
  }

  /** A validator without stake is never selected while anybody has stake. */
  lemma NoStakeNoSelection(vs: seq<ValidatorState>, word: nat, number: nat)
    requires Sum(TotalStakes(vs)) > 0
    ensures vs != []
    ensures var i := SelectedIndex(vs, word, number); i < |vs| && vs[i].ownStake + vs[i].delegatedStake > 0
  {
    var stakes := TotalStakes(vs);
    var t := number % Sum(stakes);
    ProportionalElection(stakes, 0);
    var i := SelectedIndex(vs, word, number);
    ScanInRange(stakes, t, 0, 0);
    assert stakes[..0] == [];
    ScanFinds(stakes, t, 0, i);
    SumTake(stakes, i);
  }

  /** The selection is fair in the number read from the seed. */
  lemma FairSelection(vs: seq<ValidatorState>, word: nat, from: nat, k: nat)
    requires Sum(TotalStakes(vs)) > 0 && k < |vs|
    ensures |set number: nat | from <= number < from + Sum(TotalStakes(vs)) && SelectedIndex(vs, word, number) == k|
         == vs[k].ownStake + vs[k].delegatedStake
  {
    var stakes := TotalStakes(vs);
    var total := Sum(stakes);
    var (lo, hi) := (Sum(stakes[..k]), Sum(stakes[..k + 1]));
    SumTake(stakes, k);
    SumMonotone(stakes, k + 1, |stakes|);
    assert stakes[..|stakes|] == stakes && stakes[..0] == [];
    WindowSize(total, from, lo, hi);
    forall number: nat
      ensures SelectedIndex(vs, word, number) == k <==> lo <= Remainder(number, total) < hi
    {
      ScanFinds(stakes, number % total, 0, k);
      ScanEnds(stakes, number % total, 0);
    }
    assert Remaining(total, from, lo, hi)
        == set number: nat | from <= number < from + total && SelectedIndex(vs, word, number) == k;
  }

  /** Without any stake the word chooses, each of `|vs|` consecutive words another one. */
  lemma NoStakeSelection(vs: seq<ValidatorState>, from: nat, number: nat, k: nat)
    requires k < |vs| && Sum(TotalStakes(vs)) == 0
    ensures |set word: nat | from <= word < from + |vs| && SelectedIndex(vs, word, number) == k| == 1
  {
    WindowSize(|vs|, from, k, k + 1);
    assert Remaining(|vs|, from, k, k + 1)
        == set word: nat | from <= word < from + |vs| && SelectedIndex(vs, word, number) == k;
  }

  /** The order of the sets: stakes descend, ids ascend, and nothing is lost or added. */
  lemma SetDescends(epoch: nat, entries: seq<StakeEntry>)
    ensures var s := NewSet(epoch, entries);
            && (forall i, j :: 0 <= i < j < |s.validators| ==> s.validators[i].stake >= s.validators[j].stake)
            && (forall v :: multiset(s.validators)[v] == if v.status == Active then multiset(entries)[v] else 0)
            && s.epoch == epoch && s.totalStake == Sum(Stakes(s.validators))
  {
    MoreStakeOrders();
    Sorting.SortSorts(MoreStake, OnlyActive(entries));
    forall v
      ensures multiset(OnlyActive(entries))[v] == if v.status == Active then multiset(entries)[v] else 0
    {
      ActiveCounts(entries, v);
    }
  }

  lemma {:induction false} ActiveCounts(entries: seq<StakeEntry>, v: StakeEntry)
    ensures multiset(OnlyActive(entries))[v] == if v.status == Active then multiset(entries)[v] else 0
  {
    if entries != [] {
      ActiveCounts(entries[1..], v);
      assert entries == [entries[0]] + entries[1..];
    }
  }

  /** Some byte decides, or the one is the beginning of the other. */
  ghost predicate Before(a: Bytes, b: Bytes) {
    a <= b || exists i :: 0 <= i < |a| && i < |b| && a[..i] == b[..i] && a[i] < b[i]
  }

  lemma SameHead(a: Bytes, b: Bytes, i: nat)
    requires 0 < i <= |a| && i <= |b| && a[..i] == b[..i]
    ensures a[0] == b[0]
  {
    assert a[..i][0] == b[..i][0];
  }

  lemma {:induction false} LexIsBefore(a: Bytes, b: Bytes)
    ensures LexLeq(a, b) <==> Before(a, b)
  {
    if a != [] && b != [] {
      assert a == [a[0]] + a[1..] && b == [b[0]] + b[1..];
      LexIsBefore(a[1..], b[1..]);
      if a[0] < b[0] {
        assert a[..0] == b[..0];
      } else if a[0] == b[0] {
        if i :| 0 <= i < |a| && i < |b| && a[..i] == b[..i] && a[i] < b[i] {
          assert i > 0;
          assert a[1..][..i - 1] == a[..i][1..] && b[1..][..i - 1] == b[..i][1..];
          assert a[1..][i - 1] < b[1..][i - 1];
        }
        if i :| 0 <= i < |a[1..]| && i < |b[1..]| && a[1..][..i] == b[1..][..i] && a[1..][i] < b[1..][i] {
          assert a[..i + 1] == [a[0]] + a[1..][..i] && b[..i + 1] == [b[0]] + b[1..][..i];
          assert a[i + 1] < b[i + 1];
        }
      } else if i :| 0 <= i < |a| && i < |b| && a[..i] == b[..i] && a[i] < b[i] {
        if i > 0 {
          SameHead(a, b, i);
        }
      }
    }
  }

  lemma SelectorAscends(vs: seq<ValidatorState>)
    ensures var s := NewSelector(vs);
            && (forall i, j :: 0 <= i < j < |s| ==> Before(s[i].id, s[j].id))
            && multiset(s) == multiset(vs)
  {
    ByIdOrders();
    Sorting.SortSorts(ById, vs);
    var s := NewSelector(vs);
    forall i, j | 0 <= i < j < |s|
      ensures Before(s[i].id, s[j].id)
    {
      LexIsBefore(s[i].id, s[j].id);
    }
  }

  method SelectLeader(vs: seq<ValidatorState>, word: nat, number: nat) returns (leader: Bytes)
    requires vs != []
    ensures SelectedIndex(vs, word, number) < |vs| && leader == vs[SelectedIndex(vs, word, number)].id
  {
    var stakes := TotalStakes(vs);
    var totalStake: nat := 0;
    for i := 0 to |vs|
      invariant totalStake == Sum(stakes[..i])
    {
      SumTake(stakes, i);
      totalStake := totalStake + (vs[i].ownStake + vs[i].delegatedStake);
    }
    assert stakes[..|vs|] == stakes;
    if totalStake == 0 {
      return vs[word % |vs|].id;
    }
    var target := number % totalStake;
    var cumulative: nat := 0;
    for i := 0 to |vs|
      invariant Scan(stakes, target, cumulative, i) == Scan(stakes, target, 0, 0)
    {
      cumulative := cumulative + (vs[i].ownStake + vs[i].delegatedStake);
      if cumulative > target {
        return vs[i].id;
      }
    }
    return vs[|vs| - 1].id;
  }

  /** The entries with stake `k`, in the order they stand. */
  function OfStake(k: nat, vs: seq<StakeEntry>): seq<StakeEntry> {
    if vs == [] then [] else (if vs[0].stake == k then [vs[0]] else []) + OfStake(k, vs[1..])
  }

  /** For every stake, the entries of that stake stand in the same order in both. */
  ghost predicate SameByStake(x: seq<StakeEntry>, y: seq<StakeEntry>) {
    forall k: nat :: OfStake(k, x) == OfStake(k, y)
  }

  lemma {:induction false} OfStakeIsTie(z: StakeEntry, vs: seq<StakeEntry>)
    ensures Sorting.Tie(MoreStake, z, vs) == OfStake(z.stake, vs)
  {
    if vs != [] {
      OfStakeIsTie(z, vs[1..]);
    }
  }

  /** Order dependence, exactly: two listings of entries give the same validator set
      if and only if, for every stake, their active entries of that stake stand in
      the same order. */
  lemma SameSetIff(epoch: nat, v: seq<StakeEntry>, w: seq<StakeEntry>)
    ensures NewSet(epoch, v) == NewSet(epoch, w) <==> SameByStake(OnlyActive(v), OnlyActive(w))
  {
    hide Sorting.Sort, Sorting.SameTies, SameByStake, OnlyActive, SetOf;
    var (x, y) := (OnlyActive(v), OnlyActive(w));
    MoreStakeOrders();
    Sorting.SameSortIff(MoreStake, x, y);
    TiesAreStakes(x, y);
    SetOfInjective(epoch, Sorting.Sort(MoreStake, x), Sorting.Sort(MoreStake, y));
  }

  lemma SetOfInjective(epoch: nat, a: seq<StakeEntry>, b: seq<StakeEntry>)
    ensures SetOf(epoch, a) == SetOf(epoch, b) <==> a == b
  {
    assert SetOf(epoch, a).validators == a && SetOf(epoch, b).validators == b;
  }

  lemma MoreStakeOrders()
    ensures Sorting.TotalPreorder(MoreStake)
  {
  }

  lemma TiesAreStakes(x: seq<StakeEntry>, y: seq<StakeEntry>)
    ensures Sorting.SameTies(MoreStake, x, y) <==> SameByStake(x, y)
  {
    if Sorting.SameTies(MoreStake, x, y) {
      forall k: nat
        ensures OfStake(k, x) == OfStake(k, y)
      {
        var z := WithStake(k);
        OfStakeIsTie(z, x);
        OfStakeIsTie(z, y);
        assert Sorting.Tie(MoreStake, z, x) == Sorting.Tie(MoreStake, z, y);
      }
    } else if SameByStake(x, y) {
      forall z
        ensures Sorting.Tie(MoreStake, z, x) == Sorting.Tie(MoreStake, z, y)
      {
        OfStakeIsTie(z, x);
        OfStakeIsTie(z, y);
        assert OfStake(z.stake, x) == OfStake(z.stake, y);
      }
    }
  }

  /** Some entry with stake `k`. */
  function WithStake(k: nat): StakeEntry {
    StakeEntry([], k, Active, 0)
  }

  /** The validator set orders by stake alone, so equal stakes keep the order in
      which the entries came: the same entries listed in another order can elect
      another leader. */
  lemma TiesDependOnOrder(epoch: nat, a: StakeEntry, b: StakeEntry)
    requires a != b && a.stake == b.stake > 0 && a.status == b.status == Active
    ensures var (s, t) := (NewSet(epoch, [a, b]), NewSet(epoch, [b, a]));
            && ElectedIndex(s, 0) == ElectedIndex(t, 0) == Some(0)
            && s.validators[0] == a && t.validators[0] == b
  {
    SortedPair(a, b);
    SortedPair(b, a);
  }

  lemma SortedPair(a: StakeEntry, b: StakeEntry)
    requires a.stake == b.stake > 0 && a.status == b.status == Active
    ensures NewSet(0, [a, b]).validators == [a, b] && Sum(Stakes([a, b])) == a.stake + b.stake
  {
    assert [a, b][1..] == [b] && [b][1..] == [];
    assert OnlyActive([b]) == [b] && OnlyActive([a, b]) == [a, b];
    assert Sorting.Sort(MoreStake, [b]) == [b];
    assert Stakes([a, b]) == [a.stake, b.stake];
    var pair: seq<nat> := [a.stake, b.stake];
    assert pair[1..] == [b.stake];
    assert Sum([b.stake]) == b.stake + Sum([]);
    assert Sum(pair) == a.stake + Sum(pair[1..]);
  }

  lemma {:induction false} OnlyActiveCounts(vs: seq<StakeEntry>, x: StakeEntry)
    ensures multiset(OnlyActive(vs))[x] == if x.status == Active then multiset(vs)[x] else 0
  {
    if vs != [] {
      assert vs == [vs[0]] + vs[1..];
      OnlyActiveCounts(vs[1..], x);
    }
  }

  /** With distinct stakes among the active entries their order does not matter. */
  lemma DistinctStakesIgnoreOrder(epoch: nat, v: seq<StakeEntry>, w: seq<StakeEntry>)
    requires multiset(v) == multiset(w)
    requires forall a, b :: a in v && b in v && a.status == b.status == Active && a.stake == b.stake ==> a == b
    ensures NewSet(epoch, v) == NewSet(epoch, w)
  {
    hide Sorting.Sort;
    var (x, y) := (OnlyActive(v), OnlyActive(w));
    forall e
      ensures multiset(x)[e] == multiset(y)[e]
    {
      OnlyActiveCounts(v, e);
      OnlyActiveCounts(w, e);
    }
    assert multiset(x) == multiset(y);
    Sorting.SortSorts(MoreStake, x);
    Sorting.SortSorts(MoreStake, y);
    var s := Sorting.Sort(MoreStake, x);
    forall a, b | a in s && b in s && MoreStake(a, b) && MoreStake(b, a)
      ensures a == b
    {
      assert a in multiset(s) && b in multiset(s);
      assert a in x && b in x;
    }
    Sorting.SortedIsUnique(MoreStake, s, Sorting.Sort(MoreStake, y));
  }
}
