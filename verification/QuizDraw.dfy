/** Drawing question ids from the config, dealing one draw out to the members of a squad, and
    the fresh draw a member gets for a retry. `random.shuffle` is any permutation.
 */
module QuizDraw {
  import opened Wrappers

  // ---------------------------------------------------------------- dealing

  /** A drawn question as the split sees it. */
  datatype Card = Card(id: int, required: bool)

  function Keep(cards: seq<Card>, required: bool): seq<Card> {
    if cards == [] then [] else
    (if cards[0].required == required then [cards[0]] else []) + Keep(cards[1..], required)
  }

  /** Required questions first, each group in draw order. */
  function Ordered(cards: seq<Card>): seq<Card> {
    Keep(cards, true) + Keep(cards, false)
  }

  /** The positions dealt to seat j when n cards go round a table of m: j, j + m, j + 2m, ... */
  function Seats(n: nat, m: nat, j: nat): seq<nat>
    requires m > 0
    decreases if j < n then n - j else 0
  {
    if j >= n then [] else [j] + Seats(n, m, j + m)
  }

  lemma {:induction false} SeatsBounds(n: nat, m: nat, j: nat, i: nat)
    requires m > 0 && i < |Seats(n, m, j)|
    ensures j <= Seats(n, m, j)[i] < n
    decreases if j < n then n - j else 0
  {
    if i > 0 { SeatsBounds(n, m, j + m, i - 1); }
  }

  ghost predicate Increasing(s: seq<nat>) {
    forall a, b :: 0 <= a < b < |s| ==> s[a] < s[b]
  }

  lemma {:induction false} SeatsIncrease(n: nat, m: nat, j: nat)
    requires m > 0
    ensures Increasing(Seats(n, m, j))
    decreases if j < n then n - j else 0
  {
    if j < n {
      SeatsIncrease(n, m, j + m);
      var rest := Seats(n, m, j + m);
      forall i | 0 <= i < |rest| ensures j < rest[i] {
        SeatsBounds(n, m, j + m, i);
      }
    }
  }

  /** Two seats of the table never hold the same position. */
  lemma {:induction false} SeatsDisjoint(n: nat, m: nat, j: nat, k: nat, a: nat, b: nat)
    requires m > 0 && j < k < j + m
    requires a < |Seats(n, m, j)| && b < |Seats(n, m, k)|
    ensures Seats(n, m, j)[a] != Seats(n, m, k)[b]
    decreases if j < n then n - j else 0
  {
    SeatsBounds(n, m, k, b);
    if a > 0 { SeatsDisjoint(n, m, k, j + m, b, a - 1); }
  }

  /** Every position is held by some seat of the table. */
  lemma {:induction false} SeatsCover(n: nat, m: nat, from: nat, p: nat) returns (j: nat, a: nat)
    requires m > 0 && from <= p < n
    ensures from <= j < from + m && a < |Seats(n, m, j)| && Seats(n, m, j)[a] == p
    decreases p - from
  {
    if p < from + m {
      j, a := p, 0;
    } else {
      var k, b := SeatsCover(n, m, from + m, p);
      j, a := k - m, b + 1;
    }
  }

  /** The hands differ by at most one card. */
  lemma {:induction false} SeatsEven(n: nat, m: nat, j: nat, k: nat)
    requires m > 0 && j <= k <= j + m
    ensures |Seats(n, m, k)| <= |Seats(n, m, j)| <= |Seats(n, m, k)| + 1
    decreases if j < n then n - j else 0
  {
    if k < n { SeatsEven(n, m, j + m, k + m); }
  }

  function Hand(cards: seq<Card>, m: nat, j: nat): (ids: seq<int>)
    requires m > 0
  {
    var seats := Seats(|cards|, m, j);
    seq(|seats|, i requires 0 <= i < |seats| => SeatsBounds(|cards|, m, j, i); cards[seats[i]].id)
  }

  /** What `split_draw` returns for at least one member. */
  function Split(cards: seq<Card>, m: nat): seq<seq<int>>
    requires m > 0
  {
    seq(m, j requires 0 <= j < m => Hand(Ordered(cards), m, j))
  }

  lemma AtLeastOnce(a: nat, m: nat)
    requires a >= 1
    ensures a * m >= m
  {
  }

  lemma Quotient(q: nat, r: nat, p: nat, s: nat, m: nat)
    requires q * m + r == p * m + s && r < m && s < m
    ensures q == p && r == s
  {
    if p < q {
      assert (q - p) * m == q * m - p * m;
      AtLeastOnce(q - p, m);
    } else if q < p {
      assert (p - q) * m == p * m - q * m;
      AtLeastOnce(p - q, m);
    }
  }

  lemma ModIs(x: nat, m: nat, q: nat, r: nat)
    requires r < m && x == q * m + r
    ensures x % m == r
  {
    Quotient(x / m, x % m, q, r, m);
  }

  lemma ModStep(x: nat, m: nat)
    requires m > 0
    ensures (x + m) % m == x % m
  {
    var q := x / m;
    assert (q + 1) * m == q * m + m;
    ModIs(x + m, m, q + 1, x % m);
  }

  /** Dealing one more card hands it to the seat whose turn it is. */
  lemma {:induction false} SeatsGrow(n: nat, m: nat, j: nat)
    requires m > 0
    ensures Seats(n + 1, m, j) == Seats(n, m, j) + if j <= n && (n - j) % m == 0 then [n] else []
    decreases if j < n then n - j else 0
  {
    if j == n {
      ModIs(0, m, 0, 0);
      assert Seats(n + 1, m, n + m) == [];
    } else if j < n {
      SeatsGrow(n, m, j + m);
      if j + m <= n {
        ModStep(n - j - m, m);
      } else {
        ModIs(n - j, m, 0, n - j);
      }
    }
  }

  lemma {:induction false} TurnOf(p: nat, m: nat, j: nat)
    requires j < m
    ensures p % m == j <==> j <= p && (p - j) % m == 0
    decreases p
  {
    if p < m {
      ModIs(p, m, 0, p);
      if j <= p { ModIs(p - j, m, 0, p - j); }
    } else {
      ModStep(p - m, m);
      TurnOf(p - m, m, j);
      if p - m < j {
        ModIs(p - m, m, 0, p - m);
        ModIs(p - j, m, 0, p - j);
      } else {
        ModStep(p - m - j, m);
      }
    }
  }

  method SplitDraw(cards: seq<Card>, memberCount: int) returns (r: Result<seq<seq<int>>, string>)
    ensures r.Err? <==> memberCount < 1
    ensures r.Ok? ==> r.value == Split(cards, memberCount)
  {
    if memberCount < 1 { return Err("member_count must be >= 1"); }
    var m: nat := memberCount;
    var ordered := Ordered(cards);
    var slices: seq<seq<int>> := seq(m, _ => []);
    for p := 0 to |ordered|
      invariant |slices| == m
      invariant forall j :: 0 <= j < m ==> slices[j] == Hand(ordered[..p], m, j)
    {
      var turn := p % m;
      ghost var before := slices;
      slices := slices[turn := slices[turn] + [ordered[p].id]];
      forall j | 0 <= j < m ensures slices[j] == Hand(ordered[..p + 1], m, j) {
        HandGrows(ordered, m, j, p);
        TurnOf(p, m, j);
        assert before[j] == Hand(ordered[..p], m, j);
      }
    }
    assert ordered[..|ordered|] == ordered;
    r := Ok(slices);
    assert slices == Split(cards, memberCount);
  }

  lemma HandGrows(cards: seq<Card>, m: nat, j: nat, p: nat)
    requires m > 0 && p < |cards|
    ensures Hand(cards[..p + 1], m, j)
            == Hand(cards[..p], m, j) + if j <= p && (p - j) % m == 0 then [cards[p].id] else []
  {
    SeatsGrow(p, m, j);
    var seats := Seats(p, m, j);
    forall i | 0 <= i < |seats| ensures seats[i] < p {
      SeatsBounds(p, m, j, i);
    }
  }

  // ---------------------------------------------------------------- what the split promises

  ghost predicate DistinctIds(cards: seq<Card>) {
    forall a, b :: 0 <= a < b < |cards| ==> cards[a].id != cards[b].id
  }

  ghost predicate Place(slices: seq<seq<int>>, j: int, a: int) {
    0 <= j < |slices| && 0 <= a < |slices[j]|
  }

  ghost predicate PlacedAt(slices: seq<seq<int>>, id: int, j: int, a: int) {
    Place(slices, j, a) && slices[j][a] == id
  }

  ghost predicate Drawn(cards: seq<Card>, id: int) {
    exists c :: c in cards && c.id == id
  }

  /** Every drawn id has exactly one place, and nothing else has one. */
  ghost predicate Partition(cards: seq<Card>, slices: seq<seq<int>>) {
    (forall c :: c in cards ==> exists j, a :: PlacedAt(slices, c.id, j, a))
    && (forall j, a :: Place(slices, j, a) ==> Drawn(cards, slices[j][a]))
    && (forall id, j, k, a, b :: PlacedAt(slices, id, j, a) && PlacedAt(slices, id, k, b) ==> j == k && a == b)
  }

  lemma {:induction false} KeepMembers(cards: seq<Card>, required: bool)
    ensures forall c :: c in Keep(cards, required) <==> c in cards && c.required == required
  {
    if cards != [] { KeepMembers(cards[1..], required); }
  }

  lemma {:induction false} KeepDistinct(cards: seq<Card>, required: bool)
    requires DistinctIds(cards)
    ensures DistinctIds(Keep(cards, required))
  {
    if cards != [] {
      KeepDistinct(cards[1..], required);
      KeepMembers(cards[1..], required);
      var rest := Keep(cards[1..], required);
      forall b | 0 <= b < |rest| ensures rest[b].id != cards[0].id {
        assert rest[b] in cards[1..];
        var i :| 0 <= i < |cards[1..]| && cards[1..][i] == rest[b];
        assert cards[i + 1].id == rest[b].id;
      }
    }
  }

  lemma OrderedDistinct(cards: seq<Card>)
    requires DistinctIds(cards)
    ensures DistinctIds(Ordered(cards))
    ensures forall c :: c in Ordered(cards) <==> c in cards
  {
    KeepMembers(cards, true);
    KeepMembers(cards, false);
    KeepDistinct(cards, true);
    KeepDistinct(cards, false);
    var r, o := Keep(cards, true), Keep(cards, false);
    forall a, b | 0 <= a < |r| && 0 <= b < |o| ensures r[a].id != o[b].id {
      assert r[a] in cards && o[b] in cards;
      var i :| 0 <= i < |cards| && cards[i] == r[a];
      var k :| 0 <= k < |cards| && cards[k] == o[b];
      assert i != k;
    }
  }

  /** The split gives each drawn id to exactly one member. */
  lemma SplitPartitions(cards: seq<Card>, m: nat)
    requires m > 0 && DistinctIds(cards)
    ensures Partition(cards, Split(cards, m))
  {
    OrderedDistinct(cards);
    var ordered, slices := Ordered(cards), Split(cards, m);
    forall c | c in cards ensures exists j, a :: PlacedAt(slices, c.id, j, a) {
      assert c in ordered;
      var p :| 0 <= p < |ordered| && ordered[p] == c;
      var j, a := SeatsCover(|ordered|, m, 0, p);
      assert PlacedAt(slices, c.id, j, a);
    }
    forall j, a | Place(slices, j, a) ensures Drawn(cards, slices[j][a]) {
      SeatsBounds(|ordered|, m, j, a);
      assert ordered[Seats(|ordered|, m, j)[a]] in cards;
    }
    forall id, j, k, a, b | PlacedAt(slices, id, j, a) && PlacedAt(slices, id, k, b)
      ensures j == k && a == b
    {
      SamePlace(ordered, m, j, k, a, b);
    }
  }

  lemma SamePlace(ordered: seq<Card>, m: nat, j: nat, k: nat, a: nat, b: nat)
    requires m > 0 && DistinctIds(ordered) && j < m && k < m
    requires a < |Hand(ordered, m, j)| && b < |Hand(ordered, m, k)|
    requires Hand(ordered, m, j)[a] == Hand(ordered, m, k)[b]
    ensures j == k && a == b
  {
    var n := |ordered|;
    SeatsBounds(n, m, j, a);
    SeatsBounds(n, m, k, b);
    assert Seats(n, m, j)[a] == Seats(n, m, k)[b];
    if j < k {
      SeatsDisjoint(n, m, j, k, a, b);
    } else if k < j {
      SeatsDisjoint(n, m, k, j, b, a);
    }
    SeatsIncrease(n, m, j);
  }

  predicate IsRequiredId(cards: seq<Card>, id: int) {
    exists c :: c in cards && c.id == id && c.required
  }

  /** How many of a slice's questions are required ones. */
  function RequiredAmong(cards: seq<Card>, ids: seq<int>): nat {
    if ids == [] then 0 else
    (if IsRequiredId(cards, ids[0]) then 1 else 0) + RequiredAmong(cards, ids[1..])
  }

  lemma {:induction false} RequiredCount(cards: seq<Card>, ordered: seq<Card>, r: nat, m: nat, j: nat)
    requires m > 0 && r <= |ordered|
    requires forall i :: 0 <= i < |ordered| ==> (IsRequiredId(cards, ordered[i].id) <==> i < r)
    ensures RequiredAmong(cards, Hand(ordered, m, j)) == |Seats(r, m, j)|
    decreases if j < |ordered| then |ordered| - j else 0
  {
    if j < |ordered| {
      var hand := Hand(ordered, m, j);
      assert hand[0] == ordered[j].id;
      assert hand[1..] == Hand(ordered, m, j + m);
      RequiredCount(cards, ordered, r, m, j + m);
    }
  }

  lemma RequiredFirst(cards: seq<Card>, i: nat)
    requires DistinctIds(cards) && i < |Ordered(cards)|
    ensures IsRequiredId(cards, Ordered(cards)[i].id) <==> i < |Keep(cards, true)|
  {
    OrderedDistinct(cards);
    KeepMembers(cards, true);
    KeepMembers(cards, false);
    var r, c := |Keep(cards, true)|, Ordered(cards)[i];
    assert if i < r then c == Keep(cards, true)[i] else c == Keep(cards, false)[i - r];
    assert c in cards && (c.required <==> i < r);
    if d :| d in cards && d.id == c.id {
      assert d in Ordered(cards);
      var k :| 0 <= k < |Ordered(cards)| && Ordered(cards)[k] == d;
      assert k == i;
    }
  }

  /** Slice sizes differ by at most one, and so do the numbers of required questions in them. */
  lemma SplitEven(cards: seq<Card>, m: nat, j: nat, k: nat)
    requires j < k < m && DistinctIds(cards)
    ensures var a, b := Split(cards, m)[j], Split(cards, m)[k];
            |b| <= |a| <= |b| + 1
            && RequiredAmong(cards, b) <= RequiredAmong(cards, a) <= RequiredAmong(cards, b) + 1
  {
    var ordered, r := Ordered(cards), |Keep(cards, true)|;
    forall i | 0 <= i < |ordered| ensures IsRequiredId(cards, ordered[i].id) <==> i < r {
      RequiredFirst(cards, i);
    }
    SeatsEven(|ordered|, m, j, k);
    SeatsEven(r, m, j, k);
    RequiredCount(cards, ordered, r, m, j);
    RequiredCount(cards, ordered, r, m, k);
  }

  // ---------------------------------------------------------------- the draw

  /** A config question: a type that can be graded, and whether it must be drawn. */
  datatype ConfigQuestion = ConfigQuestion(supported: bool, required: bool)

  /** Ids (config positions) of supported questions that are, or are not, required. */
  function PickIds(qs: seq<ConfigQuestion>, required: bool): seq<int> {
    if qs == [] then [] else
    var last := |qs| - 1;
    PickIds(qs[..last], required) +
    if qs[last].supported && qs[last].required == required then [last] else []
  }

  type Shuffle = seq<int> -> seq<int>

  ghost predicate IsShuffle(f: Shuffle) {
    forall s :: multiset(f(s)) == multiset(s)
  }

  function Take(s: seq<int>, n: int): seq<int> {
    if n <= 0 then [] else if n >= |s| then s else s[..n]
  }

  /** `_select_question_ids`; a config that does not shuffle passes the identity twice. */
  function SelectIds(qs: seq<ConfigQuestion>, total: int, first: Shuffle, second: Shuffle): seq<int> {
    var required := PickIds(qs, true);
    second(required + Take(first(PickIds(qs, false)), total - |required|))
  }

  ghost predicate NoRepeats(s: seq<int>) {
    forall x :: multiset(s)[x] <= 1
  }

  lemma {:induction false} PickIdsMeans(qs: seq<ConfigQuestion>, required: bool)
    ensures NoRepeats(PickIds(qs, required))
    ensures forall x :: x in PickIds(qs, required) <==>
              0 <= x < |qs| && qs[x].supported && qs[x].required == required
  {
    if qs != [] {
      var last := |qs| - 1;
      PickIdsMeans(qs[..last], required);
      var front := PickIds(qs[..last], required);
      assert last !in front;
      assert multiset(front)[last] == 0;
      forall x ensures x in PickIds(qs, required) <==>
                0 <= x < |qs| && qs[x].supported && qs[x].required == required
      {
        if 0 <= x < last { assert qs[..last][x] == qs[x]; }
      }
    }
  }

  lemma Shuffled(a: seq<int>, b: seq<int>)
    requires multiset(a) == multiset(b)
    ensures |a| == |b|
    ensures forall x :: x in a <==> x in b
    ensures NoRepeats(b) ==> NoRepeats(a)
  {
    assert |a| == |multiset(a)| && |b| == |multiset(b)|;
    forall x ensures x in a <==> x in b {
      assert x in a <==> x in multiset(a);
      assert x in b <==> x in multiset(b);
    }
  }

  /** Joining two lists that share nothing, the second cut short. */
  lemma JoinPart(required: seq<int>, pool: seq<int>, n: int)
    requires NoRepeats(required) && NoRepeats(pool)
    requires forall x :: x in required ==> x !in pool
    ensures NoRepeats(required + Take(pool, n))
    ensures forall x :: x in required + Take(pool, n) ==> x in required || x in pool
    ensures |Take(pool, n)| == if n <= 0 then 0 else if n >= |pool| then |pool| else n
  {
    var part := Take(pool, n);
    if 0 < n < |pool| { assert pool == pool[..n] + pool[n..]; }
    forall x ensures multiset(required + part)[x] <= 1 {
      assert multiset(required + part)[x] == multiset(required)[x] + multiset(part)[x];
      assert multiset(part)[x] <= multiset(pool)[x];
      if x in required { assert x !in multiset(pool); } else { assert x !in multiset(required); }
    }
  }

  ghost predicate SoundDraw(qs: seq<ConfigQuestion>, total: int, ids: seq<int>) {
    var required, optional := PickIds(qs, true), PickIds(qs, false);
    NoRepeats(ids)
    && (forall x :: x in ids ==> 0 <= x < |qs| && qs[x].supported)
    && (forall x :: 0 <= x < |qs| && qs[x].supported && qs[x].required ==> x in ids)
    && |ids| == |required| + |Take(optional, total - |required|)|
  }

  /** The same for any two lists of ids that share nothing. */
  lemma PooledDraw(required: seq<int>, optional: seq<int>, n: int, pool: seq<int>, ids: seq<int>)
    requires NoRepeats(required) && NoRepeats(optional)
    requires forall x :: x in required ==> x !in optional
    requires multiset(pool) == multiset(optional)
    requires multiset(ids) == multiset(required + Take(pool, n))
    ensures NoRepeats(ids) && |ids| == |required| + |Take(optional, n)|
    ensures forall x :: x in ids ==> x in required || x in optional
    ensures forall x :: x in required ==> x in ids
  {
    Shuffled(pool, optional);
    JoinPart(required, pool, n);
    Shuffled(ids, required + Take(pool, n));
  }

  /** A draw repeats nothing, holds only supported questions and every required one, and has
      the configured size as far as the questions allow. */
  lemma DrawMeans(qs: seq<ConfigQuestion>, total: int, first: Shuffle, second: Shuffle)
    requires IsShuffle(first) && IsShuffle(second)
    ensures SoundDraw(qs, total, SelectIds(qs, total, first, second))
  {
    var required, optional := PickIds(qs, true), PickIds(qs, false);
    var ids := SelectIds(qs, total, first, second);
    PickIdsMeans(qs, true);
    PickIdsMeans(qs, false);
    PooledDraw(required, optional, total - |required|, first(optional), ids);
    assert SoundDraw(qs, total, ids);
  }

  /** The config a retry draws from: as many questions as the member's slice held, and only
      the required ones of that slice still required. */
  function RetryConfig(qs: seq<ConfigQuestion>, mine: set<int>): seq<ConfigQuestion> {
    seq(|qs|, i requires 0 <= i < |qs| => qs[i].(required := qs[i].required && i in mine))
  }

  lemma {:induction false} SizeOfIds(s: seq<int>)
    requires NoRepeats(s)
    ensures |s| == |set x | x in s|
  {
    if s != [] {
      var front, last := s[..|s| - 1], s[|s| - 1];
      assert s == front + [last];
      assert multiset(s)[last] == multiset(front)[last] + 1;
      forall x ensures multiset(front)[x] <= 1 { assert multiset(front)[x] <= multiset(s)[x]; }
      SizeOfIds(front);
      assert last !in front;
      assert (set x | x in s) == (set x | x in front) + {last};
    }
  }

  lemma Subset(a: set<int>, b: set<int>)
    requires a <= b
    ensures |a| <= |b|
  {
    assert b == a + (b - a);
  }

  /** The slice's own required questions and the pool of fillers are enough for the slice. */
  lemma RetryCounts(qs: seq<ConfigQuestion>, mine: set<int>)
    requires forall x :: x in mine ==> 0 <= x < |qs| && qs[x].supported
    ensures var cfg := RetryConfig(qs, mine);
            |PickIds(cfg, true)| <= |mine| <= |PickIds(cfg, true)| + |PickIds(cfg, false)|
  {
    var cfg := RetryConfig(qs, mine);
    var required, optional := PickIds(cfg, true), PickIds(cfg, false);
    PickIdsMeans(cfg, true);
    PickIdsMeans(cfg, false);
    SizeOfIds(required);
    SizeOfIds(optional);
    var r := set x | x in required;
    var o := set x | x in optional;
    forall x | x in r ensures x in mine { assert cfg[x].required; }
    Subset(r, mine);
    forall x | x in mine ensures x in r + o { assert cfg[x].supported; }
    assert mine <= r + o;
    Subset(mine, r + o);
    assert |r + o| <= |r| + |o|;
  }

  /** A retry draw has exactly the size of the member's slice, repeats nothing, and still holds
      every required question of that slice. */
  lemma RetryDraw(qs: seq<ConfigQuestion>, mine: set<int>, first: Shuffle, second: Shuffle)
    requires IsShuffle(first) && IsShuffle(second)
    requires forall x :: x in mine ==> 0 <= x < |qs| && qs[x].supported
    ensures var ids := SelectIds(RetryConfig(qs, mine), |mine|, first, second);
            |ids| == |mine| && NoRepeats(ids)
            && (forall x :: x in mine && qs[x].required ==> x in ids)
            && (forall x :: x in ids ==> 0 <= x < |qs| && qs[x].supported)
  {
    var cfg := RetryConfig(qs, mine);
    DrawMeans(cfg, |mine|, first, second);
    RetryCounts(qs, mine);
    forall x | x in mine && qs[x].required ensures x in SelectIds(cfg, |mine|, first, second) {
      assert cfg[x].required && cfg[x].supported;
    }
  }
}
