/** The blended grade: weighted means that drop absent components, scaled into the grade range,
    rounded and clamped; and the mean quiz percentage of a squad.
 */
module Grading {
  import opened Wrappers
  import opened Rounding

  // ---------------------------------------------------------------- blending

  datatype Component = Component(value: Option<real>, weight: real)

  predicate Present(c: Component) {
    c.value.Some? && c.weight > 0.0
  }

  /** The weight and the weighted value a component adds; an absent one adds nothing. */
  function Share(c: Component): real {
    if Present(c) then c.weight else 0.0
  }

  function Term(c: Component): real {
    if Present(c) then c.value.value * c.weight else 0.0
  }

  function Sum(xs: seq<real>): real {
    if xs == [] then 0.0 else xs[0] + Sum(xs[1..])
  }

  function Shares(cs: seq<Component>): seq<real> {
    seq(|cs|, i requires 0 <= i < |cs| => Share(cs[i]))
  }

  function Terms(cs: seq<Component>): seq<real> {
    seq(|cs|, i requires 0 <= i < |cs| => Term(cs[i]))
  }

  function WeightSum(cs: seq<Component>): real {
    Sum(Shares(cs))
  }

  function ValueSum(cs: seq<Component>): real {
    Sum(Terms(cs))
  }

  /** `_blend`: the weighted mean of the present components, None when there is none. */
  function Blend(cs: seq<Component>): Option<real> {
    if WeightSum(cs) > 0.0 then Some(ValueSum(cs) / WeightSum(cs)) else None
  }

  lemma Times(a: real, b: real, w: real)
    requires a <= b && w >= 0.0
    ensures a * w <= b * w
  {
    assert (b - a) * w >= 0.0;
  }

  lemma Strict(a: real, b: real, w: real)
    requires a < b && w > 0.0
    ensures a * w < b * w
  {
    assert (b - a) * w > 0.0;
  }

  lemma Quotient(s: real, lo: real, hi: real, w: real)
    requires w > 0.0 && lo * w <= s <= hi * w
    ensures lo <= s / w <= hi
  {
    var q := s / w;
    assert q * w == s;
    if q < lo { Strict(q, lo, w); }
    if q > hi { Strict(hi, q, w); }
  }

  /** Every present component is a percentage. */
  ghost predicate AllPercent(cs: seq<Component>) {
    forall i :: 0 <= i < |cs| && Present(cs[i]) ==> 0.0 <= cs[i].value.value <= 100.0
  }

  lemma TermPercent(c: Component)
    requires Present(c) ==> 0.0 <= c.value.value <= 100.0
    ensures 0.0 <= Term(c) <= 100.0 * Share(c)
  {
    if Present(c) {
      Times(0.0, c.value.value, c.weight);
      Times(c.value.value, 100.0, c.weight);
    }
  }

  lemma {:induction false} SumPercent(ws: seq<real>, vs: seq<real>)
    requires |ws| == |vs| && forall i :: 0 <= i < |ws| ==> 0.0 <= vs[i] <= 100.0 * ws[i]
    ensures 0.0 <= Sum(vs) <= 100.0 * Sum(ws)
  {
    if ws != [] {
      SumPercent(ws[1..], vs[1..]);
    }
  }

  /** A blend of percentages is a percentage. */
  lemma BlendPercent(cs: seq<Component>)
    requires AllPercent(cs)
    ensures Blend(cs).Some? ==> 0.0 <= Blend(cs).value <= 100.0
  {
    var ws, vs := Shares(cs), Terms(cs);
    forall i | 0 <= i < |cs| ensures 0.0 <= vs[i] <= 100.0 * ws[i] {
      TermPercent(cs[i]);
    }
    SumPercent(ws, vs);
    if Sum(ws) > 0.0 { Quotient(Sum(vs), 0.0, 100.0, Sum(ws)); }
  }

  /** The same components present with the same weights, none lower. */
  ghost predicate Raised(a: seq<Component>, b: seq<Component>) {
    |a| == |b| && forall i :: 0 <= i < |a| ==> RaisedOne(a[i], b[i])
  }

  ghost predicate RaisedOne(a: Component, b: Component) {
    a.weight == b.weight && (a.value.Some? <==> b.value.Some?) && (a.value.Some? ==> a.value.value <= b.value.value)
  }

  lemma {:induction false} SumRaised(xs: seq<real>, ys: seq<real>)
    requires |xs| == |ys| && forall i :: 0 <= i < |xs| ==> xs[i] <= ys[i]
    ensures Sum(xs) <= Sum(ys)
  {
    if xs != [] {
      SumRaised(xs[1..], ys[1..]);
    }
  }

  lemma TermRaised(a: Component, b: Component)
    requires RaisedOne(a, b)
    ensures Share(a) == Share(b) && Term(a) <= Term(b)
  {
    if Present(a) { Times(a.value.value, b.value.value, a.weight); }
  }

  lemma BlendRaised(a: seq<Component>, b: seq<Component>)
    requires Raised(a, b)
    ensures (Blend(a).Some? <==> Blend(b).Some?) && (Blend(a).Some? ==> Blend(a).value <= Blend(b).value)
  {
    forall i | 0 <= i < |a| ensures Shares(a)[i] == Shares(b)[i] && Terms(a)[i] <= Terms(b)[i] {
      assert RaisedOne(a[i], b[i]);
      TermRaised(a[i], b[i]);
    }
    assert Shares(a) == Shares(b);
    SumRaised(Terms(a), Terms(b));
    var w := WeightSum(a);
    if w > 0.0 {
      Quotient(ValueSum(a), ValueSum(a) / w, ValueSum(b) / w, w) by {
        assert ValueSum(a) / w * w == ValueSum(a) && ValueSum(b) / w * w == ValueSum(b);
      }
    }
  }

  function ScaleOne(x: Component, c: real): Component {
    x.(weight := c * x.weight)
  }

  function Scale(cs: seq<Component>, c: real): seq<Component> {
    seq(|cs|, i requires 0 <= i < |cs| => ScaleOne(cs[i], c))
  }

  /** y is c times x. */
  ghost predicate ScaledBy(y: real, c: real, x: real) {
    y == c * x
  }

  lemma TermScaled(x: Component, c: real)
    requires c > 0.0
    ensures ScaledBy(Share(ScaleOne(x, c)), c, Share(x)) && ScaledBy(Term(ScaleOne(x, c)), c, Term(x))
  {
    ScaledSign(x.weight, c);
    if Present(x) { Reorder(x.value.value, c, x.weight); }
  }

  lemma Reorder(v: real, c: real, w: real)
    ensures v * (c * w) == c * (v * w)
  {
  }

  lemma Spread(k: real, a: real, b: real)
    ensures k * (a + b) == k * a + k * b
  {
  }

  lemma {:induction false} SumScaled(xs: seq<real>, ys: seq<real>, c: real)
    requires |xs| == |ys| && forall i :: 0 <= i < |xs| ==> ScaledBy(ys[i], c, xs[i])
    ensures ScaledBy(Sum(ys), c, Sum(xs))
  {
    if xs != [] {
      assert ScaledBy(ys[0], c, xs[0]);
      assert forall i :: 0 <= i < |xs[1..]| ==> xs[1..][i] == xs[i + 1] && ys[1..][i] == ys[i + 1];
      SumScaled(xs[1..], ys[1..], c);
      Spread(c, xs[0], Sum(xs[1..]));
    }
  }

  lemma ScaledSign(w: real, c: real)
    requires c > 0.0
    ensures c * w > 0.0 <==> w > 0.0
  {
  }

  /** Only the proportions of the weights matter. */
  lemma BlendScaled(cs: seq<Component>, c: real)
    requires c > 0.0
    ensures Blend(Scale(cs, c)) == Blend(cs)
  {
    var ds := Scale(cs, c);
    forall i | 0 <= i < |cs|
      ensures ScaledBy(Shares(ds)[i], c, Shares(cs)[i]) && ScaledBy(Terms(ds)[i], c, Terms(cs)[i])
    {
      TermScaled(cs[i], c);
    }
    SumScaled(Shares(cs), Shares(ds), c);
    SumScaled(Terms(cs), Terms(ds), c);
    SameRatio(ValueSum(cs), WeightSum(cs), ValueSum(ds), WeightSum(ds), c);
  }

  lemma SameRatio(v: real, w: real, v': real, w': real, c: real)
    requires c > 0.0 && ScaledBy(v', c, v) && ScaledBy(w', c, w)
    ensures w' > 0.0 <==> w > 0.0
    ensures w > 0.0 ==> v' / w' == v / w
  {
    ScaledSign(w, c);
    if w > 0.0 {
      var q := v / w;
      assert v == q * w;
      Reorder(q, c, w);
      Quotient(v', q, q, w');
    }
  }

  /** What the weights mean: the blend of two present components is their balance point. */
  lemma BlendBalances(v: real, u: real, wv: real, wu: real)
    requires wv > 0.0 && wu > 0.0
    ensures var m := Blend([Component(Some(v), wv), Component(Some(u), wu)]);
            m.Some? && wv * (v - m.value) == wu * (m.value - u)
  {
    SumOfTwo(Component(Some(v), wv), Component(Some(u), wu));
    Balance(v, u, wv, wu);
  }

  /** A component without a value or a positive weight drops out, on either side. */
  lemma BlendDrops(v: real, wv: real, absent: Component)
    requires wv > 0.0 && !Present(absent)
    ensures Blend([Component(Some(v), wv), absent]) == Blend([absent, Component(Some(v), wv)]) == Some(v)
  {
    SumOfTwo(Component(Some(v), wv), absent);
    SumOfTwo(absent, Component(Some(v), wv));
    var left, right := [Component(Some(v), wv), absent], [absent, Component(Some(v), wv)];
    Cancels(ValueSum(left), WeightSum(left), v, wv);
    Cancels(ValueSum(right), WeightSum(right), v, wv);
  }

  lemma Cancels(sum: real, weight: real, v: real, w: real)
    requires w > 0.0 && sum == v * w && weight == w
    ensures sum / weight == v
  {
    Quotient(sum, v, v, weight);
  }

  lemma SumOfTwo(x: Component, y: Component)
    ensures WeightSum([x, y]) == Share(x) + Share(y) && ValueSum([x, y]) == Term(x) + Term(y)
  {
    assert Shares([x, y]) == [Share(x), Share(y)] && Terms([x, y]) == [Term(x), Term(y)];
    SumPair(Share(x), Share(y));
    SumPair(Term(x), Term(y));
  }

  lemma SumPair(a: real, b: real)
    ensures Sum([a, b]) == a + b
  {
    assert [a, b][1..] == [b] && [b][1..] == [];
    assert Sum([b]) == b;
  }

  lemma Balance(v: real, u: real, wv: real, wu: real)
    requires wv > 0.0 && wu > 0.0
    ensures var m := (v * wv + u * wu) / (wv + wu);
            wv * (v - m) == wu * (m - u)
  {
    var m := (v * wv + u * wu) / (wv + wu);
    assert m * (wv + wu) == v * wv + u * wu;
    Spread(m, wv, wu);
  }

  // ---------------------------------------------------------------- the grade

  datatype Weights = Weights(code: real, quiz: real, works: real, quality: real)

  function Code(w: Weights, works: Option<real>, mark: Option<real>): seq<Component> {
    [Component(works, w.works), Component(mark, w.quality)]
  }

  function Normalized(w: Weights, works: Option<real>, mark: Option<real>, quiz: Option<real>): real {
    var blended := Blend([Component(Blend(Code(w, works, mark)), w.code), Component(quiz, w.quiz)]);
    if blended.Some? then blended.value else 0.0
  }

  function Rounded(minGrade: int, maxGrade: int, normalized: real, roundUp: bool): int {
    RoundGrade(Scaled(minGrade, maxGrade, normalized), roundUp)
  }

  /** A percentage stretched over the grade range. */
  function Scaled(minGrade: int, maxGrade: int, normalized: real): real {
    minGrade as real + (maxGrade - minGrade) as real * (normalized / 100.0)
  }

  function RoundGrade(scaled: real, roundUp: bool): int {
    if roundUp then Ceil(Round6(scaled)) else HalfEven(scaled)
  }

  function ComputeGrade(w: Weights, minGrade: int, maxGrade: int, works: Option<real>, mark: Option<real>,
                        quiz: Option<real>, roundUp: bool): int {
    Clamp(minGrade, maxGrade, Rounded(minGrade, maxGrade, Normalized(w, works, mark, quiz), roundUp))
  }

  // ---------------------------------------------------------------- what the weights mean

  /** The code half of the grade: the works' score and the reviewer's mark. */
  function CodeScore(w: Weights, works: Option<real>, mark: Option<real>): Option<real> {
    Blend(Code(w, works, mark))
  }

  /** With both present, the code score balances the works' score by its weight against the mark by
      the weight of quality; with one, it is that one; with none there is no code score. */
  lemma CodeBalances(w: Weights, works: Option<real>, mark: Option<real>)
    requires w.works > 0.0 && w.quality > 0.0
    ensures CodeScore(w, works, mark).Some? <==> works.Some? || mark.Some?
    ensures works.Some? && mark.Some? ==>
              var c := CodeScore(w, works, mark).value;
              w.works * (works.value - c) == w.quality * (c - mark.value)
    ensures works.Some? && mark.None? ==> CodeScore(w, works, mark) == works
    ensures works.None? && mark.Some? ==> CodeScore(w, works, mark) == mark
  {
    PairBlend(works, w.works, mark, w.quality);
  }

  /** The same of the grade's percentage: the code score by the weight of code against the quiz by
      its own, the one that is there if only one is, and nothing if none is. */
  lemma GradeBalances(w: Weights, works: Option<real>, mark: Option<real>, quiz: Option<real>)
    requires w.code > 0.0 && w.quiz > 0.0
    ensures var code, n := CodeScore(w, works, mark), Normalized(w, works, mark, quiz);
            (code.Some? && quiz.Some? ==> w.code * (code.value - n) == w.quiz * (n - quiz.value))
            && (code.Some? && quiz.None? ==> n == code.value)
            && (code.None? && quiz.Some? ==> n == quiz.value)
            && (code.None? && quiz.None? ==> n == 0.0)
  {
    PairBlend(CodeScore(w, works, mark), w.code, quiz, w.quiz);
  }

  /** A weight of zero or less switches its component off. */
  lemma WeightlessDrops(w: Weights, works: Option<real>, mark: Option<real>, quiz: Option<real>)
    ensures w.works <= 0.0 ==> CodeScore(w, works, mark) == CodeScore(w, None, mark)
    ensures w.quality <= 0.0 ==> CodeScore(w, works, mark) == CodeScore(w, works, None)
    ensures w.code <= 0.0 ==> Normalized(w, works, mark, quiz) == Normalized(w, None, None, quiz)
    ensures w.quiz <= 0.0 ==> Normalized(w, works, mark, quiz) == Normalized(w, works, mark, None)
  {
    SumOfTwo(Component(works, w.works), Component(mark, w.quality));
    SumOfTwo(Component(None, w.works), Component(mark, w.quality));
    SumOfTwo(Component(works, w.works), Component(None, w.quality));
    SumOfTwo(Component(None, w.works), Component(None, w.quality));
    SumOfTwo(Component(CodeScore(w, works, mark), w.code), Component(quiz, w.quiz));
    SumOfTwo(Component(CodeScore(w, None, None), w.code), Component(quiz, w.quiz));
    SumOfTwo(Component(CodeScore(w, works, mark), w.code), Component(None, w.quiz));
  }

  lemma PairBlend(v: Option<real>, wv: real, u: Option<real>, wu: real)
    requires wv > 0.0 && wu > 0.0
    ensures var m := Blend([Component(v, wv), Component(u, wu)]);
            (m.Some? <==> v.Some? || u.Some?)
            && (v.Some? && u.Some? ==> wv * (v.value - m.value) == wu * (m.value - u.value))
            && (v.Some? && u.None? ==> m == v) && (v.None? && u.Some? ==> m == u)
  {
    if v.Some? && u.Some? {
      BlendBalances(v.value, u.value, wv, wu);
    } else if v.Some? {
      BlendDrops(v.value, wv, Component(u, wu));
    } else if u.Some? {
      BlendDrops(u.value, wu, Component(v, wv));
    } else {
      SumOfTwo(Component(v, wv), Component(u, wu));
    }
  }

  /** The grade is that percentage of the range above the minimum, to the nearest whole grade or, for
      squads, to the next one, with a millionth of slack rounded away first. */
  lemma GradeMeans(w: Weights, minGrade: int, maxGrade: int, works: Option<real>, mark: Option<real>,
                   quiz: Option<real>)
    requires minGrade <= maxGrade && Percent(works) && Percent(mark) && Percent(quiz)
    ensures var n := Normalized(w, works, mark, quiz);
            var exact := minGrade as real + (maxGrade - minGrade) as real * (n / 100.0);
            var solo := ComputeGrade(w, minGrade, maxGrade, works, mark, quiz, false) as real;
            var squad := ComputeGrade(w, minGrade, maxGrade, works, mark, quiz, true) as real;
            solo - 0.5 <= exact <= solo + 0.5 && squad - 1.0000005 <= exact <= squad + 0.0000005
  {
    GradeInRange(w, minGrade, maxGrade, works, mark, quiz, false);
    GradeInRange(w, minGrade, maxGrade, works, mark, quiz, true);
    var exact := Scaled(minGrade, maxGrade, Normalized(w, works, mark, quiz));
    RulesMean(exact);
    Round6Means(exact);
    RulesMean(Round6(exact));
  }

  ghost predicate Percent(x: Option<real>) {
    x.Some? ==> 0.0 <= x.value <= 100.0
  }

  lemma NormalizedPercent(w: Weights, works: Option<real>, mark: Option<real>, quiz: Option<real>)
    requires Percent(works) && Percent(mark) && Percent(quiz)
    ensures 0.0 <= Normalized(w, works, mark, quiz) <= 100.0
  {
    BlendPercent(Code(w, works, mark));
    BlendPercent([Component(Blend(Code(w, works, mark)), w.code), Component(quiz, w.quiz)]);
  }

  lemma ScaledBetween(minGrade: int, maxGrade: int, x: real, y: real)
    requires minGrade <= maxGrade && 0.0 <= x <= y <= 100.0
    ensures minGrade as real <= Scaled(minGrade, maxGrade, x) <= Scaled(minGrade, maxGrade, y) <= maxGrade as real
  {
    var span := (maxGrade - minGrade) as real;
    Times(0.0, x / 100.0, span);
    Times(x / 100.0, y / 100.0, span);
    Times(y / 100.0, 1.0, span);
  }

  lemma RoundGradeBetween(scaled: real, minGrade: int, maxGrade: int, roundUp: bool)
    requires minGrade as real <= scaled <= maxGrade as real
    ensures minGrade <= RoundGrade(scaled, roundUp) <= maxGrade
  {
    Round6Between(scaled, minGrade, maxGrade);
    CeilBetween(Round6(scaled), minGrade, maxGrade);
    HalfEvenBetween(scaled, minGrade, maxGrade);
  }

  lemma RoundedBetween(minGrade: int, maxGrade: int, x: real, roundUp: bool)
    requires minGrade <= maxGrade && 0.0 <= x <= 100.0
    ensures minGrade <= Rounded(minGrade, maxGrade, x, roundUp) <= maxGrade
  {
    ScaledBetween(minGrade, maxGrade, x, x);
    RoundGradeBetween(Scaled(minGrade, maxGrade, x), minGrade, maxGrade, roundUp);
  }

  /** For percentages the rounded grade is in range before clamping: the clamp never acts. */
  lemma GradeInRange(w: Weights, minGrade: int, maxGrade: int, works: Option<real>, mark: Option<real>,
                     quiz: Option<real>, roundUp: bool)
    requires minGrade <= maxGrade && Percent(works) && Percent(mark) && Percent(quiz)
    ensures minGrade <= Rounded(minGrade, maxGrade, Normalized(w, works, mark, quiz), roundUp) <= maxGrade
    ensures ComputeGrade(w, minGrade, maxGrade, works, mark, quiz, roundUp)
            == Rounded(minGrade, maxGrade, Normalized(w, works, mark, quiz), roundUp)
  {
    NormalizedPercent(w, works, mark, quiz);
    RoundedBetween(minGrade, maxGrade, Normalized(w, works, mark, quiz), roundUp);
  }

  ghost predicate NotLower(a: Option<real>, b: Option<real>) {
    (a.Some? <==> b.Some?) && (a.Some? ==> a.value <= b.value)
  }

  lemma NormalizedMonotone(w: Weights, works: Option<real>, mark: Option<real>, quiz: Option<real>,
                           works': Option<real>, mark': Option<real>, quiz': Option<real>)
    requires NotLower(works, works') && NotLower(mark, mark') && NotLower(quiz, quiz')
    ensures Normalized(w, works, mark, quiz) <= Normalized(w, works', mark', quiz')
  {
    BlendRaised(Code(w, works, mark), Code(w, works', mark'));
    BlendRaised([Component(Blend(Code(w, works, mark)), w.code), Component(quiz, w.quiz)],
                [Component(Blend(Code(w, works', mark')), w.code), Component(quiz', w.quiz)]);
  }

  lemma RoundedMonotone(minGrade: int, maxGrade: int, x: real, y: real, roundUp: bool)
    requires minGrade <= maxGrade && 0.0 <= x <= y <= 100.0
    ensures Rounded(minGrade, maxGrade, x, roundUp) <= Rounded(minGrade, maxGrade, y, roundUp)
  {
    ScaledBetween(minGrade, maxGrade, x, y);
    RoundGradeMonotone(Scaled(minGrade, maxGrade, x), Scaled(minGrade, maxGrade, y), roundUp);
  }

  lemma RoundGradeMonotone(a: real, b: real, roundUp: bool)
    requires a <= b
    ensures RoundGrade(a, roundUp) <= RoundGrade(b, roundUp)
  {
    HalfEvenMonotone(a, b);
    Round6Monotone(a, b);
    CeilMonotone(Round6(a), Round6(b));
  }

  /** Raising any present component never lowers the grade. */
  lemma GradeMonotone(w: Weights, minGrade: int, maxGrade: int, works: Option<real>, mark: Option<real>,
                      quiz: Option<real>, works': Option<real>, mark': Option<real>, quiz': Option<real>, roundUp: bool)
    requires minGrade <= maxGrade && Percent(works) && Percent(mark) && Percent(quiz)
    requires Percent(works') && Percent(mark') && Percent(quiz')
    requires NotLower(works, works') && NotLower(mark, mark') && NotLower(quiz, quiz')
    ensures ComputeGrade(w, minGrade, maxGrade, works, mark, quiz, roundUp)
            <= ComputeGrade(w, minGrade, maxGrade, works', mark', quiz', roundUp)
  {
    NormalizedMonotone(w, works, mark, quiz, works', mark', quiz');
    NormalizedPercent(w, works, mark, quiz);
    NormalizedPercent(w, works', mark', quiz');
    RoundedMonotone(minGrade, maxGrade, Normalized(w, works, mark, quiz), Normalized(w, works', mark', quiz'), roundUp);
  }

  lemma BlendPairScaled(v: Option<real>, u: Option<real>, wv: real, wu: real, wv': real, wu': real, c: real)
    requires c > 0.0 && ScaledBy(wv', c, wv) && ScaledBy(wu', c, wu)
    ensures Blend([Component(v, wv'), Component(u, wu')]) == Blend([Component(v, wv), Component(u, wu)])
  {
    var cs := [Component(v, wv), Component(u, wu)];
    assert ScaleOne(cs[0], c).weight == wv' && ScaleOne(cs[1], c).weight == wu';
    assert Scale(cs, c)[0] == Component(v, wv') && Scale(cs, c)[1] == Component(u, wu');
    assert Scale(cs, c) == [Component(v, wv'), Component(u, wu')];
    BlendScaled(cs, c);
  }

  /** Scaling the weights of either blend by a positive factor leaves the grade as it is. */
  lemma GradeScaleFree(w: Weights, scaled: Weights, minGrade: int, maxGrade: int, works: Option<real>,
                       mark: Option<real>, quiz: Option<real>, roundUp: bool, inner: real, outer: real)
    requires inner > 0.0 && outer > 0.0
    requires ScaledBy(scaled.code, outer, w.code) && ScaledBy(scaled.quiz, outer, w.quiz)
    requires ScaledBy(scaled.works, inner, w.works) && ScaledBy(scaled.quality, inner, w.quality)
    ensures ComputeGrade(scaled, minGrade, maxGrade, works, mark, quiz, roundUp)
            == ComputeGrade(w, minGrade, maxGrade, works, mark, quiz, roundUp)
  {
    BlendPairScaled(works, mark, w.works, w.quality, scaled.works, scaled.quality, inner);
    BlendPairScaled(Blend(Code(w, works, mark)), quiz, w.code, w.quiz, scaled.code, scaled.quiz, outer);
  }

  // ---------------------------------------------------------------- squads

  /** A quiz attempt as the grade sees it. */
  datatype Attempt = Attempt(student: Option<nat>, passed: bool, score: nat, maxScore: nat)

  function Pct(a: Attempt): Option<real> {
    if a.maxScore == 0 then None else Some(a.score as real / a.maxScore as real * 100.0)
  }

  /** The percentage of the maximum, for an attempt that has one. */
  lemma PctMeans(a: Attempt)
    ensures Pct(a).Some? <==> a.maxScore > 0
    ensures Pct(a).Some? ==> Pct(a).value * a.maxScore as real == 100.0 * a.score as real
  {
    if a.maxScore > 0 { ShareTimes(a.score as real, a.maxScore as real); }
  }

  lemma ShareTimes(s: real, m: real)
    requires m > 0.0
    ensures s / m * 100.0 * m == 100.0 * s
  {
    var share := s / m;
    assert share * m == s;
    assert share * 100.0 * m == 100.0 * (share * m);
  }

  /** The attempts that count for a student, and their best percentage. */
  predicate Counts(a: Attempt, s: nat) {
    a.passed && a.student == Some(s) && Pct(a).Some?
  }

  ghost predicate IsBest(attempts: seq<Attempt>, s: nat, p: real) {
    (exists i :: 0 <= i < |attempts| && Counts(attempts[i], s) && Pct(attempts[i]) == Some(p))
    && forall i :: 0 <= i < |attempts| && Counts(attempts[i], s) ==> Pct(attempts[i]).value <= p
  }

  /** Each student with a counting attempt appears, with the best one's percentage. */
  ghost predicate BestOf(attempts: seq<Attempt>, best: map<nat, real>) {
    (forall s :: s in best ==> IsBest(attempts, s, best[s]))
    && forall i, s :: 0 <= i < |attempts| && Counts(attempts[i], s) ==> s in best
  }

  /** What ScoreWithinMax of Scoring proves of every stored attempt. */
  predicate WithinMax(attempts: seq<Attempt>) {
    forall i :: 0 <= i < |attempts| ==> attempts[i].score <= attempts[i].maxScore
  }

  lemma PctBounds(a: Attempt)
    requires Pct(a).Some?
    ensures 0.0 <= Pct(a).value && (a.score <= a.maxScore ==> Pct(a).value <= 100.0)
  {
    if a.score <= a.maxScore { Quotient(a.score as real, 0.0, 1.0, a.maxScore as real); }
  }

  lemma BestBounds(attempts: seq<Attempt>, best: map<nat, real>)
    requires BestOf(attempts, best) && WithinMax(attempts)
    ensures forall s :: s in best ==> 0.0 <= best[s] <= 100.0
  {
    forall s | s in best ensures 0.0 <= best[s] <= 100.0 {
      assert IsBest(attempts, s, best[s]);
      var i :| 0 <= i < |attempts| && Counts(attempts[i], s) && Pct(attempts[i]) == Some(best[s]);
      PctBounds(attempts[i]);
    }
  }

  /** One more attempt, as the loop of `squad_quiz_pct` takes it in. */
  function Improved(best: map<nat, real>, a: Attempt): map<nat, real> {
    if a.passed && a.student.Some? && Pct(a).Some?
       && Pct(a).value > (if a.student.value in best then best[a.student.value] else -1.0)
    then best[a.student.value := Pct(a).value]
    else best
  }

  lemma ImprovedIsBest(front: seq<Attempt>, a: Attempt, best: map<nat, real>, s: nat)
    requires BestOf(front, best) && s in Improved(best, a)
    ensures IsBest(front + [a], s, Improved(best, a)[s])
  {
    var upto := front + [a];
    assert upto[|front|] == a && forall i :: 0 <= i < |front| ==> upto[i] == front[i];
    if s in best {
      assert IsBest(front, s, best[s]);
      var i :| 0 <= i < |front| && Counts(front[i], s) && Pct(front[i]) == Some(best[s]);
      assert Counts(upto[i], s);
    }
    if Counts(a, s) { assert Counts(upto[|front|], s); }
  }

  lemma OneMoreAttempt(front: seq<Attempt>, a: Attempt, best: map<nat, real>)
    requires BestOf(front, best)
    ensures BestOf(front + [a], Improved(best, a))
  {
    var upto := front + [a];
    forall s | s in Improved(best, a) ensures IsBest(upto, s, Improved(best, a)[s]) {
      ImprovedIsBest(front, a, best, s);
    }
    forall i, s | 0 <= i < |upto| && Counts(upto[i], s) ensures s in Improved(best, a) {
      if i < |front| {
        assert Counts(front[i], s);
      } else {
        PctBounds(a);
      }
    }
  }

  /** The `best` dictionary of `squad_quiz_pct`. */
  method BestPerStudent(attempts: seq<Attempt>) returns (best: map<nat, real>)
    ensures BestOf(attempts, best)
  {
    best := map[];
    for n := 0 to |attempts|
      invariant BestOf(attempts[..n], best)
    {
      var a := attempts[n];
      OneMoreAttempt(attempts[..n], a, best);
      assert attempts[..n + 1] == attempts[..n] + [a];
      if a.passed && a.student.Some? {
        var pct, s := Pct(a), a.student.value;
        if pct.Some? && pct.value > (if s in best then best[s] else -1.0) {
          best := best[s := pct.value];
        }
      }
    }
    assert attempts[..|attempts|] == attempts;
  }

  function SumOver(best: map<nat, real>, students: seq<nat>): real
    requires forall i :: 0 <= i < |students| ==> students[i] in best
  {
    if students == [] then 0.0 else
    SumOver(best, students[..|students| - 1]) + best[students[|students| - 1]]
  }

  /** The students of the dictionary, each once. */
  ghost predicate Lists(best: map<nat, real>, students: seq<nat>) {
    (forall i :: 0 <= i < |students| ==> students[i] in best)
    && (forall i, j :: 0 <= i < j < |students| ==> students[i] != students[j])
    && |students| == |best|
  }

  /** `sum(best.values())`, with the order the values were taken in. */
  method SumValues(best: map<nat, real>) returns (total: real, ghost students: seq<nat>)
    ensures Lists(best, students) && total == SumOver(best, students)
  {
    students, total := [], 0.0;
    var todo := best.Keys;
    while todo != {}
      invariant todo <= best.Keys && |students| + |todo| == |best|
      invariant forall i :: 0 <= i < |students| ==> students[i] in best && students[i] !in todo
      invariant forall i, j :: 0 <= i < j < |students| ==> students[i] != students[j]
      invariant total == SumOver(best, students)
      decreases todo
    {
      var s :| s in todo;
      todo, total := todo - {s}, total + best[s];
      ghost var longer := students + [s];
      assert longer[..|longer| - 1] == students;
      students := longer;
    }
  }

  lemma {:induction false} SumOverPercent(best: map<nat, real>, students: seq<nat>)
    requires forall s :: s in best ==> 0.0 <= best[s] <= 100.0
    requires forall i :: 0 <= i < |students| ==> students[i] in best
    ensures 0.0 <= SumOver(best, students) <= 100.0 * |students| as real
  {
    if students != [] {
      var last := |students| - 1;
      SumOverPercent(best, students[..last]);
      assert students[last] in best;
    }
  }

  /** `squad_quiz_pct`: the mean over the members' best passed attempts. */
  method SquadQuizPct(attempts: seq<Attempt>)
    returns (pct: Option<real>, ghost best: map<nat, real>, ghost students: seq<nat>)
    ensures BestOf(attempts, best) && Lists(best, students)
    ensures pct.None? <==> |best| == 0
    ensures pct.Some? ==> students != [] && pct.value == SumOver(best, students) / |students| as real
    ensures pct.Some? && WithinMax(attempts) ==> 0.0 <= pct.value <= 100.0
  {
    var found := BestPerStudent(attempts);
    var total;
    best := found;
    total, students := SumValues(found);
    if |found| == 0 { return None, best, students; }
    if WithinMax(attempts) {
      BestBounds(attempts, found);
      SumOverPercent(found, students);
      Quotient(total, 0.0, 100.0, |found| as real);
    }
    pct := Some(total / |found| as real);
  }
}
