/** The grade of a work examined by a quiz and marked by the teacher per criterion: the config
    check, the points form, and the formula.
 */
module TeacherScores {
  import opened Wrappers
  import opened Rounding

  // ---------------------------------------------------------------- the config

  /** A criterion as written in the config; None stands for a value of the wrong type. */
  datatype RawCriterion = RawCriterion(key: Option<string>, max: Option<int>, optional: bool)

  datatype Config = Config(
    hasQuestions: bool,
    quizPoints: Option<int>,
    criteria: Option<seq<RawCriterion>>,
    minGrade: int,
    maxGrade: int)

  datatype ConfigError = NeedsQuiz | BadQuizPoints | NoCriteria | BadKey | DuplicateKey | BadMax | WrongTotal

  predicate KeyChar(c: char) {
    'a' <= c <= 'z' || '0' <= c <= '9' || c == '_'
  }

  /** The pattern ^[a-z0-9_]+$ as `match` reads it: one trailing newline is allowed. */
  predicate KeyMatches(key: string) {
    var body := if |key| > 0 && key[|key| - 1] == '\n' then key[..|key| - 1] else key;
    |body| > 0 && AllKeyChars(body)
  }

  predicate AllKeyChars(body: string) {
    forall i :: 0 <= i < |body| ==> KeyChar(body[i])
  }

  function MaxTotal(raw: seq<RawCriterion>): int {
    if raw == [] then 0 else
    MaxTotal(raw[..|raw| - 1]) + if raw[|raw| - 1].max.Some? then raw[|raw| - 1].max.value else 0
  }

  predicate CriterionOk(c: RawCriterion) {
    c.key.Some? && KeyMatches(c.key.value) && c.max.Some? && c.max.value > 0
  }

  ghost predicate DistinctKeys(raw: seq<RawCriterion>) {
    forall i, j :: 0 <= i < j < |raw| ==> raw[i].key != raw[j].key
  }

  /** What the config promises: well-formed criteria whose points fill the grade range. */
  ghost predicate Sound(cfg: Config) {
    cfg.hasQuestions
    && cfg.quizPoints.Some? && cfg.quizPoints.value >= 0
    && cfg.criteria.Some? && cfg.criteria.value != []
    && CriteriaOk(cfg.criteria.value)
    && cfg.quizPoints.value + MaxTotal(cfg.criteria.value) == cfg.maxGrade - cfg.minGrade
  }

  ghost predicate CriteriaOk(raw: seq<RawCriterion>) {
    (forall i :: 0 <= i < |raw| ==> CriterionOk(raw[i])) && DistinctKeys(raw)
  }

  function KeysOf(raw: seq<RawCriterion>): set<string> {
    set i | 0 <= i < |raw| && raw[i].key.Some? :: raw[i].key.value
  }

  lemma OneMoreKey(front: seq<RawCriterion>, item: RawCriterion)
    requires item.key.Some?
    ensures KeysOf(front + [item]) == KeysOf(front) + {item.key.value}
  {
    var longer := front + [item];
    assert longer[|front|] == item && forall i :: 0 <= i < |front| ==> longer[i] == front[i];
    forall k | k in KeysOf(front) + {item.key.value} ensures k in KeysOf(longer) {
      if k in KeysOf(front) {
        var i :| 0 <= i < |front| && front[i].key.Some? && front[i].key.value == k;
        assert longer[i].key.value == k;
      }
    }
  }

  lemma OneMoreMax(front: seq<RawCriterion>, item: RawCriterion)
    ensures MaxTotal(front + [item]) == MaxTotal(front) + if item.max.Some? then item.max.value else 0
  {
    assert (front + [item])[..|front|] == front;
  }

  /** One more criterion is fine exactly when it is well formed and its key is new. */
  lemma OneMoreCriterion(front: seq<RawCriterion>, item: RawCriterion)
    requires CriteriaOk(front)
    ensures CriteriaOk(front + [item]) <==> CriterionOk(item) && item.key.value !in KeysOf(front)
  {
    var longer := front + [item];
    assert longer[|front|] == item && forall i :: 0 <= i < |front| ==> longer[i] == front[i];
    if item.key.Some? && item.key.value in KeysOf(front) {
      var i :| 0 <= i < |front| && front[i].key.Some? && front[i].key.value == item.key.value;
      assert longer[i].key == longer[|front|].key;
    }
  }

  lemma CriteriaPrefix(raw: seq<RawCriterion>, n: nat)
    requires n <= |raw| && !CriteriaOk(raw[..n])
    ensures !CriteriaOk(raw)
  {
    assert forall i :: 0 <= i < n ==> raw[..n][i] == raw[i];
  }

  /** What is wrong with one criterion, given the ones before it. */
  ghost function CriterionFault(raw: seq<RawCriterion>, i: nat): Option<ConfigError>
    requires i < |raw|
  {
    if raw[i].key.None? || !KeyMatches(raw[i].key.value) then Some(BadKey)
    else if exists j :: 0 <= j < i && raw[j].key == raw[i].key then Some(DuplicateKey)
    else if raw[i].max.None? || raw[i].max.value <= 0 then Some(BadMax)
    else None
  }

  lemma SeenBefore(raw: seq<RawCriterion>, n: nat)
    requires n < |raw| && CriteriaOk(raw[..n]) && raw[n].key.Some?
    ensures raw[n].key.value in KeysOf(raw[..n]) <==> exists j :: 0 <= j < n && raw[j].key == raw[n].key
  {
    assert forall j :: 0 <= j < n ==> raw[..n][j] == raw[j];
    if j :| 0 <= j < n && raw[j].key == raw[n].key { assert raw[..n][j].key.value in KeysOf(raw[..n]); }
  }

  lemma OneMoreChar(body: string, c: char)
    ensures AllKeyChars("") && (AllKeyChars(body + [c]) <==> AllKeyChars(body) && KeyChar(c))
  {
    var longer := body + [c];
    assert longer[|body|] == c && forall i :: 0 <= i < |body| ==> longer[i] == body[i];
  }

  lemma PlainKey(key: string)
    requires key == "" || key[|key| - 1] != '\n'
    ensures KeyMatches(key) <==> key != "" && AllKeyChars(key)
  {
  }

  /** The keys: a letter, a digit or an underscore, and any key grows by one of these... */
  lemma KeysGrow(key: string, c: char)
    requires c != '\n' && (key == "" || key[|key| - 1] != '\n')
    ensures KeyMatches(key + [c]) <==>
              (key == "" || KeyMatches(key)) && ('a' <= c <= 'z' || '0' <= c <= '9' || c == '_')
  {
    var longer := key + [c];
    assert longer[|longer| - 1] == c;
    PlainKey(longer);
    PlainKey(key);
    OneMoreChar(key, c);
  }

  /** ...and only the very end may also hold a newline. */
  lemma KeyEnds(key: string)
    requires key == "" || key[|key| - 1] != '\n'
    ensures !KeyMatches("") && (KeyMatches(key + ['\n']) <==> KeyMatches(key))
  {
    var longer := key + ['\n'];
    assert longer[|key|] == '\n' && longer[..|longer| - 1] == key;
    PlainKey(key);
  }

  /** What is wrong with the next criterion, told by the keys seen before. */
  lemma FaultIs(raw: seq<RawCriterion>, n: nat)
    requires n < |raw| && CriteriaOk(raw[..n])
    ensures CriterionFault(raw, n)
            == if raw[n].key.None? || !KeyMatches(raw[n].key.value) then Some(BadKey)
               else if raw[n].key.value in KeysOf(raw[..n]) then Some(DuplicateKey)
               else if raw[n].max.None? || raw[n].max.value <= 0 then Some(BadMax)
               else None
  {
    if raw[n].key.Some? { SeenBefore(raw, n); }
  }

  /** A faulty criterion spoils the list; another one extends it. */
  lemma NextCriterion(raw: seq<RawCriterion>, n: nat)
    requires n < |raw| && CriteriaOk(raw[..n])
    ensures var ok := CriterionOk(raw[n]) && raw[n].key.value !in KeysOf(raw[..n]);
            if ok then CriteriaOk(raw[..n + 1]) && KeysOf(raw[..n + 1]) == KeysOf(raw[..n]) + {raw[n].key.value}
                       && MaxTotal(raw[..n + 1]) == MaxTotal(raw[..n]) + raw[n].max.value
            else !CriteriaOk(raw)
  {
    var front, item := raw[..n], raw[n];
    assert raw[..n + 1] == front + [item];
    OneMoreCriterion(front, item);
    OneMoreMax(front, item);
    if CriterionOk(item) && item.key.value !in KeysOf(front) {
      OneMoreKey(front, item);
    } else {
      CriteriaPrefix(raw, n + 1);
    }
  }

  /** The loop over the criteria, with its `seen` and `total` accumulators. */
  method CheckCriteria(raw: seq<RawCriterion>) returns (error: Option<ConfigError>, total: int)
    ensures error.None? <==> CriteriaOk(raw)
    ensures error.None? ==> total == MaxTotal(raw)
    ensures error.Some? ==> exists i :: 0 <= i < |raw| && CriterionFault(raw, i) == error
  {
    var seen: set<string> := {};
    total := 0;
    for n := 0 to |raw|
      invariant CriteriaOk(raw[..n]) && seen == KeysOf(raw[..n]) && total == MaxTotal(raw[..n])
    {
      var item := raw[n];
      FaultIs(raw, n);
      NextCriterion(raw, n);
      if item.key.None? || !KeyMatches(item.key.value) { return Some(BadKey), total; }
      if item.key.value in seen { return Some(DuplicateKey), total; }
      seen := seen + {item.key.value};
      if item.max.None? || item.max.value <= 0 { return Some(BadMax), total; }
      total := total + item.max.value;
    }
    assert raw[..|raw|] == raw;
    error := None;
  }

  /** `validate_assignment` accepts exactly the sound configs. */
  method ValidateAssignment(cfg: Config) returns (error: Option<ConfigError>)
    ensures error.None? <==> Sound(cfg)
    ensures error == Some(NeedsQuiz) <==> !cfg.hasQuestions
    ensures error == Some(BadQuizPoints) <==>
              cfg.hasQuestions && (cfg.quizPoints.None? || cfg.quizPoints.value < 0)
    ensures error.Some? && error.value in {BadKey, DuplicateKey, BadMax} ==>
              cfg.criteria.Some?
              && exists i :: 0 <= i < |cfg.criteria.value| && CriterionFault(cfg.criteria.value, i) == error
    ensures error == Some(WrongTotal) ==>
              cfg.criteria.Some? && cfg.quizPoints.Some? && CriteriaOk(cfg.criteria.value)
              && cfg.quizPoints.value + MaxTotal(cfg.criteria.value) != cfg.maxGrade - cfg.minGrade
  {
    if !cfg.hasQuestions { return Some(NeedsQuiz); }
    if cfg.quizPoints.None? || cfg.quizPoints.value < 0 { return Some(BadQuizPoints); }
    if cfg.criteria.None? || cfg.criteria.value == [] { return Some(NoCriteria); }
    var total;
    error, total := CheckCriteria(cfg.criteria.value);
    if error.Some? { return; }
    if cfg.quizPoints.value + total != cfg.maxGrade - cfg.minGrade { return Some(WrongTotal); }
  }

  // ---------------------------------------------------------------- the form

  datatype Criterion = Criterion(key: string, max: int, optional: bool)

  /** The criteria of a checked config, in config order. */
  function Criteria(raw: seq<RawCriterion>): seq<Criterion>
    requires forall i :: 0 <= i < |raw| ==> CriterionOk(raw[i])
  {
    seq(|raw|, i requires 0 <= i < |raw| && CriterionOk(raw[i]) =>
      Criterion(raw[i].key.value, raw[i].max.value, raw[i].optional))
  }

  /** A stripped form field: empty, not all digits, or a whole number. */
  datatype Field = Empty | NotWhole | Whole(n: nat)

  function FieldOf(form: map<string, Field>, c: Criterion): Field {
    var name := "score_" + c.key;
    if name in form then form[name] else Empty
  }

  predicate FieldOk(form: map<string, Field>, c: Criterion) {
    FieldOf(form, c).Empty? || (FieldOf(form, c).Whole? && FieldOf(form, c).n <= c.max)
  }

  datatype ScoreError = NotANumber(key: string) | AboveMaximum(key: string)

  /** The points of a form are exactly its filled fields. */
  ghost predicate Read(crits: seq<Criterion>, form: map<string, Field>, out: map<string, nat>) {
    (forall i :: 0 <= i < |crits| ==>
       FieldOk(form, crits[i])
       && (crits[i].key in out <==> FieldOf(form, crits[i]).Whole?)
       && (crits[i].key in out ==> out[crits[i].key] == FieldOf(form, crits[i]).n))
    && (forall k :: k in out ==> exists i :: 0 <= i < |crits| && crits[i].key == k)
  }

  /** The first field that is not a number or is above its maximum, and the error for it. */
  ghost predicate FirstFault(crits: seq<Criterion>, form: map<string, Field>, i: nat, error: ScoreError)
    requires i < |crits|
  {
    (forall j :: 0 <= j < i ==> FieldOk(form, crits[j]))
    && match error
       case NotANumber(key) => key == crits[i].key && FieldOf(form, crits[i]).NotWhole?
       case AboveMaximum(key) =>
         key == crits[i].key && FieldOf(form, crits[i]).Whole? && FieldOf(form, crits[i]).n > crits[i].max
  }

  method ParseForm(crits: seq<Criterion>, form: map<string, Field>) returns (r: Result<map<string, nat>, ScoreError>)
    ensures r.Ok? <==> forall i :: 0 <= i < |crits| ==>
                         FieldOf(form, crits[i]).Empty?
                         || (FieldOf(form, crits[i]).Whole? && FieldOf(form, crits[i]).n <= crits[i].max)
    ensures r.Ok? ==> Read(crits, form, r.value)
    ensures r.Err? ==> exists i :: 0 <= i < |crits| && FirstFault(crits, form, i, r.error)
  {
    var out: map<string, nat> := map[];
    for n := 0 to |crits|
      invariant Read(crits[..n], form, out)
    {
      var c := crits[n];
      assert crits[..n + 1] == crits[..n] + [c];
      match FieldOf(form, c)
      case Empty =>
        assert forall i :: 0 <= i < n && crits[i].key == c.key ==> FieldOf(form, crits[i]) == FieldOf(form, c);
      case NotWhole =>
        assert !FieldOk(form, crits[n]);
        assert FirstFault(crits, form, n, NotANumber(c.key));
        return Err(NotANumber(c.key));
      case Whole(v) =>
        if v > c.max {
          assert !FieldOk(form, crits[n]);
          assert FirstFault(crits, form, n, AboveMaximum(c.key));
          return Err(AboveMaximum(c.key));
        }
        assert forall i :: 0 <= i < n && crits[i].key == c.key ==> FieldOf(form, crits[i]) == FieldOf(form, c);
        out := out[c.key := v];
    }
    assert crits[..|crits|] == crits;
    r := Ok(out);
  }

  function IsComplete(crits: seq<Criterion>, scores: map<string, nat>): bool {
    forall i :: 0 <= i < |crits| ==> crits[i].optional || crits[i].key in scores
  }

  /** Points read from a form are complete exactly when every required field is filled. */
  lemma CompleteExactly(crits: seq<Criterion>, form: map<string, Field>, scores: map<string, nat>)
    requires Read(crits, form, scores)
    ensures IsComplete(crits, scores) <==>
              forall i :: 0 <= i < |crits| && !crits[i].optional ==> FieldOf(form, crits[i]).Whole?
  {
  }

  /** The field of a criterion is the one named after its key. */
  lemma FieldNamed(form: map<string, Field>, c: Criterion, field: Field)
    ensures FieldOf(form["score_" + c.key := field], c) == field
    ensures "score_" + c.key !in form ==> FieldOf(form, c) == Empty
  {
  }

  // ---------------------------------------------------------------- the formula

  function QuizPointsFor(quizPoints: int, quizPct: real, roundUp: bool): int {
    WholePoints(Round6(QuizShare(quizPoints, quizPct)), roundUp)
  }

  function QuizShare(quizPoints: int, quizPct: real): real {
    quizPct / 100.0 * quizPoints as real
  }

  function WholePoints(raw: real, roundUp: bool): int {
    if roundUp then Ceil(raw) else HalfUp(raw)
  }

  function PointsTotal(crits: seq<Criterion>, scores: map<string, nat>): int {
    if crits == [] then 0 else
    PointsTotal(crits[..|crits| - 1], scores)
    + if crits[|crits| - 1].key in scores then scores[crits[|crits| - 1].key] else 0
  }

  function Grade(crits: seq<Criterion>, quizPoints: int, minGrade: int, maxGrade: int,
                 quizPct: real, scores: map<string, nat>, roundUp: bool): int {
    Clamp(minGrade, maxGrade, minGrade + QuizPointsFor(quizPoints, quizPct, roundUp) + PointsTotal(crits, scores))
  }

  lemma QuizShareBound(quizPoints: nat, quizPct: real)
    requires 0.0 <= quizPct <= 100.0
    ensures 0.0 <= QuizShare(quizPoints, quizPct) <= quizPoints as real
  {
    var share, whole := quizPct / 100.0, quizPoints as real;
    assert 0.0 <= share <= 1.0;
    assert (1.0 - share) * whole >= 0.0;
  }

  lemma QuizPointsBound(quizPoints: nat, quizPct: real, roundUp: bool)
    requires 0.0 <= quizPct <= 100.0
    ensures 0 <= QuizPointsFor(quizPoints, quizPct, roundUp) <= quizPoints
  {
    QuizShareBound(quizPoints, quizPct);
    var share := QuizShare(quizPoints, quizPct);
    RoundedPointsBound(share, quizPoints, roundUp);
  }

  lemma RoundedPointsBound(share: real, most: nat, roundUp: bool)
    requires 0.0 <= share <= most as real
    ensures 0 <= WholePoints(Round6(share), roundUp) <= most
  {
    Round6Between(share, 0, most);
  }

  /** The quiz points are the percentage's share of the quiz, to the nearest whole point, a half
      going up, or for squads to the next whole point; a millionth of slack is rounded away first. */
  lemma QuizPointsMean(quizPoints: nat, quizPct: real)
    ensures var share := quizPct * quizPoints as real / 100.0;
            var solo := QuizPointsFor(quizPoints, quizPct, false) as real;
            var squad := QuizPointsFor(quizPoints, quizPct, true) as real;
            solo - 0.5000005 <= share <= solo + 0.5000005 && squad - 1.0000005 <= share <= squad + 0.0000005
    ensures forall roundUp ::
              QuizPointsFor(quizPoints, 100.0, roundUp) == quizPoints && QuizPointsFor(quizPoints, 0.0, roundUp) == 0
  {
    assert QuizShare(quizPoints, quizPct) == quizPct * quizPoints as real / 100.0;
    var raw := Round6(QuizShare(quizPoints, quizPct));
    Round6Means(QuizShare(quizPoints, quizPct));
    RulesMean(raw);
    assert QuizShare(quizPoints, 100.0) == quizPoints as real && QuizShare(quizPoints, 0.0) == 0.0;
    Round6Between(quizPoints as real, quizPoints, quizPoints);
    Round6Between(0.0, 0, 0);
  }

  /** The total is what the criteria add up to: nothing without points, and one criterion's points
      count for exactly themselves. */
  lemma {:induction false} PointsAddUp(crits: seq<Criterion>, scores: map<string, nat>, key: string, n: nat)
    requires forall i, j :: 0 <= i < j < |crits| ==> crits[i].key != crits[j].key
    ensures PointsTotal(crits, map[]) == 0
    ensures PointsTotal(crits, scores[key := n])
            == PointsTotal(crits, scores)
               + if exists i :: 0 <= i < |crits| && crits[i].key == key
                 then n - (if key in scores then scores[key] else 0) else 0
  {
    if crits != [] {
      var front, last := crits[..|crits| - 1], crits[|crits| - 1];
      PointsAddUp(front, scores, key, n);
      if last.key == key {
        assert !exists i :: 0 <= i < |front| && front[i].key == key;
      } else if exists i :: 0 <= i < |front| && front[i].key == key {
        var i :| 0 <= i < |front| && front[i].key == key;
        assert crits[i].key == key;
      }
    }
  }

  lemma CriteriaFront(raw: seq<RawCriterion>)
    requires raw != [] && forall i :: 0 <= i < |raw| ==> CriterionOk(raw[i])
    ensures var front, last := raw[..|raw| - 1], raw[|raw| - 1];
            (forall i :: 0 <= i < |front| ==> CriterionOk(front[i]))
            && Criteria(raw)[..|raw| - 1] == Criteria(front)
            && Criteria(raw)[|raw| - 1] == Criterion(last.key.value, last.max.value, last.optional)
  {
  }

  /** No criterion has more points than its maximum. */
  ghost predicate WithinMaxima(crits: seq<Criterion>, scores: map<string, nat>) {
    forall i :: 0 <= i < |crits| && crits[i].key in scores ==> scores[crits[i].key] <= crits[i].max
  }

  function MaxSum(crits: seq<Criterion>): int {
    if crits == [] then 0 else MaxSum(crits[..|crits| - 1]) + crits[|crits| - 1].max
  }

  lemma {:induction false} PointsWithin(crits: seq<Criterion>, scores: map<string, nat>)
    requires WithinMaxima(crits, scores) && forall i :: 0 <= i < |crits| ==> crits[i].max >= 0
    ensures 0 <= PointsTotal(crits, scores) <= MaxSum(crits)
  {
    if crits != [] {
      var front := crits[..|crits| - 1];
      assert forall i :: 0 <= i < |front| ==> front[i] == crits[i];
      PointsWithin(front, scores);
    }
  }

  lemma {:induction false} SameMaxima(raw: seq<RawCriterion>)
    requires forall i :: 0 <= i < |raw| ==> CriterionOk(raw[i])
    ensures MaxSum(Criteria(raw)) == MaxTotal(raw)
  {
    if raw != [] {
      CriteriaFront(raw);
      SameMaxima(raw[..|raw| - 1]);
    }
  }

  lemma PointsBound(raw: seq<RawCriterion>, scores: map<string, nat>)
    requires forall i :: 0 <= i < |raw| ==> CriterionOk(raw[i])
    requires WithinMaxima(Criteria(raw), scores)
    ensures 0 <= PointsTotal(Criteria(raw), scores) <= MaxTotal(raw)
  {
    PointsWithin(Criteria(raw), scores);
    SameMaxima(raw);
  }

  /** For a checked config, an accepted form and a quiz percentage in range, the grade is
      exactly the minimum plus the quiz points plus the criteria: the clamp never acts. */
  lemma ClampNeverActs(cfg: Config, form: map<string, Field>, scores: map<string, nat>, quizPct: real, roundUp: bool)
    requires Sound(cfg) && Read(Criteria(cfg.criteria.value), form, scores)
    requires 0.0 <= quizPct <= 100.0
    ensures var crits := Criteria(cfg.criteria.value);
            var g := Grade(crits, cfg.quizPoints.value, cfg.minGrade, cfg.maxGrade, quizPct, scores, roundUp);
            g == cfg.minGrade + QuizPointsFor(cfg.quizPoints.value, quizPct, roundUp) + PointsTotal(crits, scores)
            && cfg.minGrade <= g <= cfg.maxGrade
  {
    QuizPointsBound(cfg.quizPoints.value, quizPct, roundUp);
    PointsBound(cfg.criteria.value, scores);
  }
}
