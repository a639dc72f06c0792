/**
  The self-commissioning machine of ForgeDriveMC/PmsmControl/PmsmControlCore_SComm.cpp:
  a fast PWM loop that accumulates current samples and a slow loop that steps through
  the identification stages, sharing the same fields.

  `PwmStep` and `SlowStep` say what the two loops do, without the fall-through between
  the cases of the slow loop; the methods of `Commissioning` are written with it and
  proved to do the same. `Always` then holds for any interleaving of the two loops.
*/
module SelfCommissioning {
  import opened Words

  datatype Stage = Idle | RsId | LdId | Rest0 | LqId

  datatype Sub = SettleStart | SettleWait | Sampling

  const OVERSAMPLE := 0x8000
  const MIN_TICKS := 20000
  const TICKS := 0x1_0000_0000

  /** A q31 product, as the code takes it: an arithmetic shift of the 64-bit product. */
  function MulQ31(a: int, b: int): (q: int)
    ensures IsQ31(q)
  {
    Q31(Times(a, b) / 0x8000_0000)
  }

  /** An accumulator shifted right by the 15 oversampling bits. */
  function Mean(acc: int): int {
    acc / OVERSAMPLE
  }

  /** A tick counter difference in 32 bits. */
  function Elapsed(ticks: int, start: int): int {
    if ticks >= start then ticks - start else ticks - start + TICKS
  }

  // ---------- what each loop does ----------

  /** One sample as accumulated, with the tick and the stage its current was measured in. */
  datatype Sample = Sample(tick: int, stage: Stage, direct: int, quadrature: int)

  /** One result, with the samples behind it and the tick at which its settling began. */
  datatype Estimate = Estimate(stage: Stage, samples: seq<Sample>, began: nat, mean0: int, mean1: int)

  datatype Config = Config(dc: int, hfi: int)

  /** The fields both loops share: the machine's own, and the currents and set-points of field-oriented control. */
  datatype Machine = Machine(stage: Stage, sub: Sub, acc0: int, acc1: int, start: int, counter: int, ticks: int,
                             id: int, iq: int, ecd: int, ecq: int)

  /**
    What has happened: PWM ticks so far, when settling began, the samples since, the stage
    `id` and `iq` were measured in, the results.
  */
  datatype History = History(now: nat, began: nat, taken: seq<Sample>, measured: Stage, done: seq<Estimate>)

  datatype State = State(m: Machine, h: History)

  /** A PWM tick: the injected sine and cosine, and the currents measured in it. */
  datatype Event = Pwm(sin: int, cos: int, id: int, iq: int) | Slow

  function Take(s: State, direct: int, quadrature: int): State {
    if s.m.counter > 0 && s.m.sub == Sampling then
      State(s.m.(acc0 := s.m.acc0 + direct, acc1 := s.m.acc1 + quadrature, counter := s.m.counter - 1),
            s.h.(taken := s.h.taken + [Sample(s.h.now - 1, s.h.measured, direct, quadrature)]))
    else s
  }

  /** The part before field-oriented control runs. */
  function Inject(cfg: Config, s: State, sin: int, cos: int): State {
    match s.m.stage
    case RsId => Take(s, s.m.id, 0)
    case LdId =>
      var t := Take(s, MulQ31(s.m.id, sin), MulQ31(s.m.id, cos));
      t.(m := t.m.(ecd := MulQ31(cfg.hfi, sin), ecq := 0))
    case LqId =>
      var t := Take(s, MulQ31(s.m.iq, sin), MulQ31(s.m.iq, cos));
      t.(m := t.m.(ecd := 0, ecq := MulQ31(cfg.hfi, sin)))
    case _ => s
  }

  function PwmStep(cfg: Config, s: State, sin: int, cos: int, id: int, iq: int): State {
    var t := Inject(cfg, s, sin, cos);
    State(t.m.(id := id, iq := iq, ticks := if t.m.ticks + 1 == TICKS then 0 else t.m.ticks + 1),
          t.h.(now := t.h.now + 1, measured := t.m.stage))
  }

  /** Settling begins: nothing accumulated, all samples still to take. */
  function Settle(s: State): State {
    State(s.m.(sub := SettleWait, start := s.m.ticks, acc0 := 0,
      acc1 := if s.m.stage == RsId then s.m.acc1 else 0, counter := OVERSAMPLE),
          s.h.(began := s.h.now, taken := []))
  }

  predicate Settled(m: Machine) {
    Elapsed(m.ticks, m.start) > MIN_TICKS
  }

  /** The stage's result is ready. */
  function Conclude(s: State): State {
    s.(h := s.h.(done := s.h.done
      + [Estimate(s.m.stage, s.h.taken, s.h.began, Mean(s.m.acc0), if s.m.stage == RsId then 0 else Mean(s.m.acc1))]))
  }

  function Sense(s: State): State {
    if Settled(s.m) then s.(m := s.m.(sub := Sampling)) else s
  }

  function RsStep(cfg: Config, s0: State): State {
    var s := s0.(m := s0.m.(ecd := cfg.dc, ecq := 0));
    match s.m.sub
    case SettleStart => Settle(s)
    case SettleWait => Sense(s)
    case Sampling =>
      if s.m.counter == 0 then var t := Conclude(s); t.(m := t.m.(stage := LdId, sub := SettleStart)) else s
  }

  /** From LD_ID the machine goes on to settle at rest in the same slow tick. */
  function LdStep(s: State): State {
    match s.m.sub
    case SettleStart => Settle(s)
    case SettleWait => Sense(s)
    case Sampling =>
      if s.m.counter == 0 then
        var t := Conclude(s);
        Settle(t.(m := t.m.(stage := Rest0, ecd := 0, ecq := 0)))
      else s
  }

  function LqStep(s: State): State {
    match s.m.sub
    case SettleStart => Settle(s)
    case SettleWait => if Settled(s.m) then State(s.m.(sub := Sampling, start := s.m.ticks), s.h) else s
    case Sampling =>
      if s.m.counter == 0 then var t := Conclude(s); t.(m := t.m.(stage := RsId, sub := SettleStart)) else s
  }

  /** From REST0 the machine goes on to settle for LQ_ID in the same slow tick. */
  function RestStep(s: State): State {
    match s.m.sub
    case SettleStart => Settle(s.(m := s.m.(ecd := 0, ecq := 0)))
    case SettleWait => if Settled(s.m) then Settle(s.(m := s.m.(stage := LqId))) else s
    case Sampling => s
  }

  function SlowStep(cfg: Config, s: State): State {
    match s.m.stage
    case Idle => s
    case RsId => RsStep(cfg, s)
    case LdId => LdStep(s)
    case Rest0 => RestStep(s)
    case LqId => LqStep(s)
  }

  function Step(cfg: Config, s: State, e: Event): State {
    match e
    case Pwm(sin, cos, id, iq) => PwmStep(cfg, s, sin, cos, id, iq)
    case Slow => SlowStep(cfg, s)
  }

  function Run(cfg: Config, s: State, es: seq<Event>): State {
    if es == [] then s else Step(cfg, Run(cfg, s, es[..|es| - 1]), es[|es| - 1])
  }

  // ---------- what every run keeps ----------

  function Sum0(samples: seq<Sample>): int {
    if samples == [] then 0 else Sum0(samples[..|samples| - 1]) + samples[|samples| - 1].direct
  }

  function Sum1(samples: seq<Sample>): int {
    if samples == [] then 0 else Sum1(samples[..|samples| - 1]) + samples[|samples| - 1].quadrature
  }

  /** Taken in consecutive PWM ticks, all measured in the stage itself and at least 20000 ticks after settling began. */
  ghost predicate Samples(samples: seq<Sample>, stage: Stage, began: int) {
    forall i :: 0 <= i < |samples| ==>
      && samples[i].stage == stage && samples[i].tick == samples[0].tick + i && samples[i].tick >= began + MIN_TICKS
      && IsQ31(samples[i].direct) && IsQ31(samples[i].quadrature) && (stage == RsId ==> samples[i].quadrature == 0)
  }

  /** The stage of result n: RS, LD and LQ in turn. */
  function Turn(n: nat): Stage {
    if n % 3 == 0 then RsId else if n % 3 == 1 then LdId else LqId
  }

  /** Exactly the samples asked for, all of the result's own stage and settled, and the rounded-down means of them. */
  ghost predicate Good(e: Estimate, stage: Stage) {
    && e.stage == stage && |e.samples| == OVERSAMPLE && Samples(e.samples, stage, e.began)
    && e.mean0 == Mean(Sum0(e.samples)) && e.mean1 == Mean(Sum1(e.samples))
    && IsQ31(e.mean0) && IsQ31(e.mean1)
  }

  ghost predicate AllGood(done: seq<Estimate>) {
    forall n :: 0 <= n < |done| ==> Good(done[n], Turn(n))
  }

  /** How many results are behind the machine in each stage. */
  predicate InTurn(stage: Stage, n: nat) {
    match stage
    case Idle => false
    case RsId => n % 3 == 0
    case LdId => n % 3 == 1
    case Rest0 => n % 3 == 2
    case LqId => n % 3 == 2
  }

  /** The counters of ticks and samples agree with what has happened. */
  ghost predicate Counts(s: State) {
    && s.m.ticks == s.h.now % TICKS && s.h.began <= s.h.now
    && (s.m.sub != SettleStart ==>
      && 0 <= s.m.counter && s.m.counter + |s.h.taken| == OVERSAMPLE
      && (s.h.now > s.h.began ==> s.h.measured == s.m.stage))
    && (s.m.sub == SettleWait ==> s.m.start == s.h.began % TICKS && s.h.taken == [])
    && (s.m.sub == Sampling ==> s.h.now > s.h.began + MIN_TICKS)
    && (s.m.stage == Rest0 ==> s.m.sub == SettleWait)
  }

  /** Far inside 64 bits: 2^15 samples of 31 bits. */
  predicate Fits(acc: int) {
    -0x4000_0000_0000 <= acc <= 0x4000_0000_0000
  }

  /** The accumulators hold the sums of the samples. */
  ghost predicate Held(taken: seq<Sample>, stage: Stage, began: int, acc0: int, acc1: int) {
    && |taken| <= OVERSAMPLE && Samples(taken, stage, began)
    && acc0 == Sum0(taken) && (stage == RsId || acc1 == Sum1(taken))
  }

  ghost predicate Accumulated(s: State) {
    && (s.m.sub != SettleStart ==>
      && Held(s.h.taken, s.m.stage, s.h.began, s.m.acc0, s.m.acc1)
      && (s.h.taken != [] && s.m.counter > 0 ==> s.h.taken[|s.h.taken| - 1].tick == s.h.now - 2))
    && Fits(s.m.acc0) && Fits(s.m.acc1) && IsQ31(s.m.id) && IsQ31(s.m.iq)
  }

  /** Only the axis under test is driven. */
  ghost predicate Isolated(cfg: Config, s: State) {
    match s.m.stage
    case Idle => true
    case RsId => s.m.sub != SettleStart ==> s.m.ecd == cfg.dc && s.m.ecq == 0
    case LdId => s.m.ecq == 0
    case Rest0 => s.m.ecd == 0 && s.m.ecq == 0
    case LqId => s.m.ecd == 0
  }

  ghost predicate Inv(cfg: Config, s: State) {
    Counts(s) && Accumulated(s) && Isolated(cfg, s) && AllGood(s.h.done) && InTurn(s.m.stage, |s.h.done|)
  }

  /** The currents measured are 32-bit values. */
  predicate Admissible(e: Event) {
    e.Pwm? ==> IsQ31(e.id) && IsQ31(e.iq)
  }

  // ---------- proof ----------

  /** The wrapped difference never exceeds the real one. */
  lemma ElapsedIsReal(now: nat, began: nat)
    requires began <= now
    ensures 0 <= Elapsed(now % TICKS, began % TICKS) <= now - began
    ensures now - began < TICKS ==> Elapsed(now % TICKS, began % TICKS) == now - began
  {
    var a, b := now / TICKS, began / TICKS;
    assert now == a * TICKS + now % TICKS && began == b * TICKS + began % TICKS;
  }

  lemma {:induction false} SumBounds(samples: seq<Sample>, stage: Stage, began: int)
    requires Samples(samples, stage, began)
    ensures -0x8000_0000 * |samples| <= Sum0(samples) <= 0x7fff_ffff * |samples|
    ensures -0x8000_0000 * |samples| <= Sum1(samples) <= 0x7fff_ffff * |samples|
    ensures stage == RsId ==> Sum1(samples) == 0
    decreases |samples|
  {
    if samples != [] {
      SumBounds(samples[..|samples| - 1], stage, began);
    }
  }

  lemma SamplesSnoc(samples: seq<Sample>, stage: Stage, began: int, x: Sample)
    requires Samples(samples, stage, began) && x.stage == stage && x.tick >= began + MIN_TICKS
    requires samples != [] ==> samples[|samples| - 1].tick == x.tick - 1
    requires IsQ31(x.direct) && IsQ31(x.quadrature) && (stage == RsId ==> x.quadrature == 0)
    ensures Samples(samples + [x], stage, began)
  {
  }

  lemma Snoc(samples: seq<Sample>, x: Sample, more: seq<Sample>)
    requires more == samples + [x]
    ensures |more| == |samples| + 1 && more[|more| - 1] == x && more[..|samples|] == samples
  {
  }

  lemma HeldSnoc(taken: seq<Sample>, stage: Stage, began: int, acc0: int, acc1: int, more: seq<Sample>, sum0: int,
    sum1: int)
    requires Held(taken, stage, began, acc0, acc1) && |taken| < OVERSAMPLE && |more| == |taken| + 1
      && more[..|taken|] == taken
    requires var x := more[|taken|];
      && x.stage == stage && x.tick >= began + MIN_TICKS && (taken != [] ==> taken[|taken| - 1].tick == x.tick - 1)
      && IsQ31(x.direct) && IsQ31(x.quadrature) && (stage == RsId ==> x.quadrature == 0)
      && sum0 == acc0 + x.direct && sum1 == acc1 + x.quadrature
    ensures Held(more, stage, began, sum0, sum1) && Fits(sum0) && (stage != RsId ==> Fits(sum1))
  {
    assert more == taken + [more[|taken|]];
    SamplesSnoc(taken, stage, began, more[|taken|]);
    SumBounds(more, stage, began);
  }

  lemma CountsTake(s: State, direct: int, quadrature: int)
    requires Counts(s)
    ensures Counts(Take(s, direct, quadrature))
  {
  }

  /** What taking a sample leaves for the end of the tick. */
  lemma TakeAccumulates(s: State, direct: int, quadrature: int)
    requires Counts(s) && Accumulated(s) && IsQ31(direct) && IsQ31(quadrature)
      && (s.m.stage == RsId ==> quadrature == 0)
    ensures var t := Take(s, direct, quadrature); Accumulated(State(t.m, t.h.(now := t.h.now + 1)))
  {
    if s.m.counter > 0 && s.m.sub == Sampling {
      var t := Take(s, direct, quadrature);
      Snoc(s.h.taken, Sample(s.h.now - 1, s.h.measured, direct, quadrature), t.h.taken);
      HeldSnoc(s.h.taken, s.m.stage, s.h.began, s.m.acc0, s.m.acc1, t.h.taken, t.m.acc0, t.m.acc1);
    }
  }

  lemma TicksOn(now: nat)
    ensures (now + 1) % TICKS == if now % TICKS + 1 == TICKS then 0 else now % TICKS + 1
  {
  }

  /** Taking a sample, and then setting the set-points, which have no part in the counts and sums. */
  lemma AxisKeeps(s: State, direct: int, quadrature: int, ecd: int, ecq: int)
    requires Counts(s) && Accumulated(s) && IsQ31(direct) && IsQ31(quadrature)
      && (s.m.stage == RsId ==> quadrature == 0)
    ensures var t := Take(s, direct, quadrature); var u := t.(m := t.m.(ecd := ecd, ecq := ecq));
      Counts(u) && Accumulated(State(u.m, u.h.(now := u.h.now + 1)))
  {
    CountsTake(s, direct, quadrature);
    TakeAccumulates(s, direct, quadrature);
  }

  lemma InjectKeeps(cfg: Config, s: State, sin: int, cos: int)
    requires Counts(s) && Accumulated(s) && s.m.stage != Idle
    ensures var t := Inject(cfg, s, sin, cos); Counts(t) && Accumulated(State(t.m, t.h.(now := t.h.now + 1)))
  {
    match s.m.stage
    case RsId => AxisKeeps(s, s.m.id, 0, s.m.ecd, s.m.ecq);
    case LdId => AxisKeeps(s, MulQ31(s.m.id, sin), MulQ31(s.m.id, cos), MulQ31(cfg.hfi, sin), 0);
    case LqId => AxisKeeps(s, MulQ31(s.m.iq, sin), MulQ31(s.m.iq, cos), 0, MulQ31(cfg.hfi, sin));
    case Rest0 =>
  }

  lemma PwmKeeps(cfg: Config, s: State, sin: int, cos: int, id: int, iq: int)
    requires Inv(cfg, s) && IsQ31(id) && IsQ31(iq)
    ensures Inv(cfg, PwmStep(cfg, s, sin, cos, id, iq))
  {
    InjectKeeps(cfg, s, sin, cos);
    TicksOn(s.h.now);
  }

  /** The result of a stage whose samples are all taken. */
  lemma MeansFit(taken: seq<Sample>, stage: Stage, began: nat, acc0: int, acc1: int)
    requires Held(taken, stage, began, acc0, acc1) && |taken| == OVERSAMPLE
    ensures Good(Estimate(stage, taken, began, Mean(acc0), if stage == RsId then 0 else Mean(acc1)), stage)
  {
    SumBounds(taken, stage, began);
  }

  lemma ConcludeKeeps(s: State)
    requires Counts(s) && Accumulated(s) && AllGood(s.h.done) && InTurn(s.m.stage, |s.h.done|) && s.m.sub == Sampling
      && s.m.counter == 0
    ensures AllGood(Conclude(s).h.done)
  {
    MeansFit(s.h.taken, s.m.stage, s.h.began, s.m.acc0, s.m.acc1);
  }

  lemma SenseSettled(s: State)
    requires Counts(s) && s.m.sub == SettleWait && Settled(s.m)
    ensures s.h.now > s.h.began + MIN_TICKS
  {
    ElapsedIsReal(s.h.now, s.h.began);
  }

  lemma SlowKeeps(cfg: Config, s: State)
    requires Inv(cfg, s)
    ensures Inv(cfg, SlowStep(cfg, s))
  {
    if s.m.sub == SettleWait && Settled(s.m) {
      SenseSettled(s);
    } else if s.m.sub == Sampling && s.m.counter == 0 {
      ConcludeKeeps(s);
    }
  }

  lemma {:induction false} RunKeeps(cfg: Config, s: State, es: seq<Event>)
    requires Inv(cfg, s) && forall i :: 0 <= i < |es| ==> Admissible(es[i])
    ensures Inv(cfg, Run(cfg, s, es))
    decreases |es|
  {
    if es != [] {
      RunKeeps(cfg, s, es[..|es| - 1]);
      var e, t := es[|es| - 1], Run(cfg, s, es[..|es| - 1]);
      match e
      case Pwm(sin, cos, id, iq) => PwmKeeps(cfg, t, sin, cos, id, iq);
      case Slow => SlowKeeps(cfg, t);
    }
  }

  // ---------- what the samples are samples of ----------

  /** The PWM ticks of a run, in order. */
  function Ticks(es: seq<Event>): (ts: seq<Event>)
    ensures forall k :: 0 <= k < |ts| ==> ts[k].Pwm?
  {
    if es == [] then [] else
      var init, last := Ticks(es[..|es| - 1]), es[|es| - 1];
      if last.Pwm? then init + [last] else init
  }

  /** A tick that delivers a current and the next, which accumulates it: the sample they make in a stage. */
  ghost predicate Demodulates(x: Sample, before: Event, now: Event)
    requires before.Pwm? && now.Pwm?
  {
    match x.stage
    case RsId => x.direct == before.id && x.quadrature == 0
    case LdId => x.direct == MulQ31(before.id, now.sin) && x.quadrature == MulQ31(before.id, now.cos)
    case LqId => x.direct == MulQ31(before.iq, now.sin) && x.quadrature == MulQ31(before.iq, now.cos)
    case _ => false
  }

  /** The sample is made of its own tick and the next; ticks are counted from `base`. */
  ghost predicate Drawn(x: Sample, ts: seq<Event>, base: int)
    requires forall k :: 0 <= k < |ts| ==> ts[k].Pwm?
  {
    var k := x.tick - base;
    0 <= k && k + 1 < |ts| && Demodulates(x, ts[k], ts[k + 1])
  }

  ghost predicate AllDrawn(xs: seq<Sample>, ts: seq<Event>, base: int)
    requires forall k :: 0 <= k < |ts| ==> ts[k].Pwm?
  {
    forall i :: 0 <= i < |xs| ==> Drawn(xs[i], ts, base)
  }

  ghost predicate DoneDrawn(done: seq<Estimate>, ts: seq<Event>, base: int)
    requires forall k :: 0 <= k < |ts| ==> ts[k].Pwm?
  {
    forall n :: 0 <= n < |done| ==> AllDrawn(done[n].samples, ts, base)
  }

  /** The axis under test follows the injected sine, from the first tick in the stage on. */
  ghost predicate Driven(cfg: Config, s: State, sin: int) {
    match s.m.stage
    case LdId => s.h.measured == LdId ==> s.m.ecd == MulQ31(cfg.hfi, sin) && s.m.ecq == 0
    case LqId => s.h.measured == LqId ==> s.m.ecd == 0 && s.m.ecq == MulQ31(cfg.hfi, sin)
    case _ => true
  }

  /**
    After the ticks ts, counted from `base`: the currents are those of the last, and every
    sample is drawn from them.
  */
  ghost predicate Sampled(cfg: Config, s: State, ts: seq<Event>, base: nat)
    requires forall k :: 0 <= k < |ts| ==> ts[k].Pwm?
  {
    && s.h.now == base + |ts| && base <= s.h.began
    && (ts != [] ==> var last := ts[|ts| - 1]; s.m.id == last.id && s.m.iq == last.iq && Driven(cfg, s, last.sin))
    && AllDrawn(s.h.taken, ts, base) && DoneDrawn(s.h.done, ts, base)
  }

  lemma DrawnLater(xs: seq<Sample>, ts: seq<Event>, e: Event, base: int)
    requires e.Pwm? && (forall k :: 0 <= k < |ts| ==> ts[k].Pwm?) && AllDrawn(xs, ts, base)
    ensures AllDrawn(xs, ts + [e], base)
  {
    forall i | 0 <= i < |xs|
      ensures Drawn(xs[i], ts + [e], base)
    {
      assert Drawn(xs[i], ts, base);
    }
  }

  lemma DoneLater(done: seq<Estimate>, ts: seq<Event>, e: Event, base: int)
    requires e.Pwm? && (forall k :: 0 <= k < |ts| ==> ts[k].Pwm?) && DoneDrawn(done, ts, base)
    ensures DoneDrawn(done, ts + [e], base)
  {
    forall n | 0 <= n < |done|
      ensures AllDrawn(done[n].samples, ts + [e], base)
    {
      DrawnLater(done[n].samples, ts, e, base);
    }
  }

  /** RS_ID, no settling begun, nothing identified. */
  predicate Start(s: State) {
    && s.m.stage == RsId && s.m.sub == SettleStart && s.m.ticks == s.h.now % TICKS
    && s.h.began == s.h.now && s.h.taken == [] && s.h.done == []
    && Fits(s.m.acc0) && Fits(s.m.acc1) && IsQ31(s.m.id) && IsQ31(s.m.iq)
  }

  /** The sample a tick takes is drawn from the tick before and itself. */
  lemma TakeDrawn(s: State, ts: seq<Event>, e: Event, base: nat, direct: int, quadrature: int)
    requires e.Pwm? && (forall k :: 0 <= k < |ts| ==> ts[k].Pwm?) && AllDrawn(s.h.taken, ts, base)
    requires s.h.now == base + |ts| && base <= s.h.began && Counts(s)
    requires s.m.sub == Sampling && s.m.counter > 0 ==>
      ts != [] && Demodulates(Sample(s.h.now - 1, s.m.stage, direct, quadrature), ts[|ts| - 1], e)
    ensures AllDrawn(Take(s, direct, quadrature).h.taken, ts + [e], base)
  {
    DrawnLater(s.h.taken, ts, e, base);
    if s.m.sub == Sampling && s.m.counter > 0 {
      var x := Sample(s.h.now - 1, s.m.stage, direct, quadrature);
      assert (ts + [e])[|ts| - 1] == ts[|ts| - 1] && (ts + [e])[|ts|] == e;
      assert Drawn(x, ts + [e], base);
    }
  }

  lemma InjectDrawn(cfg: Config, s: State, ts: seq<Event>, e: Event, base: nat)
    requires e.Pwm? && (forall k :: 0 <= k < |ts| ==> ts[k].Pwm?) && Counts(s) && Sampled(cfg, s, ts, base)
    ensures AllDrawn(Inject(cfg, s, e.sin, e.cos).h.taken, ts + [e], base)
    ensures Inject(cfg, s, e.sin, e.cos).h == s.h.(taken := Inject(cfg, s, e.sin, e.cos).h.taken)
  {
    DrawnLater(s.h.taken, ts, e, base);
    match s.m.stage
    case RsId => TakeDrawn(s, ts, e, base, s.m.id, 0);
    case LdId => TakeDrawn(s, ts, e, base, MulQ31(s.m.id, e.sin), MulQ31(s.m.id, e.cos));
    case LqId => TakeDrawn(s, ts, e, base, MulQ31(s.m.iq, e.sin), MulQ31(s.m.iq, e.cos));
    case _ =>
  }

  lemma PwmSampled(cfg: Config, s: State, ts: seq<Event>, e: Event, base: nat)
    requires e.Pwm? && (forall k :: 0 <= k < |ts| ==> ts[k].Pwm?) && Counts(s) && Sampled(cfg, s, ts, base)
    ensures Sampled(cfg, PwmStep(cfg, s, e.sin, e.cos, e.id, e.iq), ts + [e], base)
  {
    InjectDrawn(cfg, s, ts, e, base);
    DoneLater(s.h.done, ts, e, base);
  }

  lemma ConcludeDrawn(s: State, ts: seq<Event>, base: nat)
    requires (forall k :: 0 <= k < |ts| ==> ts[k].Pwm?)
    requires AllDrawn(s.h.taken, ts, base) && DoneDrawn(s.h.done, ts, base)
    ensures DoneDrawn(Conclude(s).h.done, ts, base)
  {
  }

  lemma SlowSampled(cfg: Config, s: State, ts: seq<Event>, base: nat)
    requires (forall k :: 0 <= k < |ts| ==> ts[k].Pwm?) && Inv(cfg, s) && Sampled(cfg, s, ts, base)
    ensures Sampled(cfg, SlowStep(cfg, s), ts, base)
  {
    ConcludeDrawn(s, ts, base);
    if s.m.sub == SettleWait && Settled(s.m) {
      SenseSettled(s);
    }
  }

  lemma {:induction false} RunSampled(cfg: Config, s: State, es: seq<Event>)
    requires Start(s) && Inv(cfg, s) && forall i :: 0 <= i < |es| ==> Admissible(es[i])
    ensures Sampled(cfg, Run(cfg, s, es), Ticks(es), s.h.now)
    decreases |es|
  {
    if es != [] {
      var init, e := es[..|es| - 1], es[|es| - 1];
      RunSampled(cfg, s, init);
      RunKeeps(cfg, s, init);
      var t := Run(cfg, s, init);
      match e
      case Pwm(_, _, _, _) => PwmSampled(cfg, t, Ticks(init), e, s.h.now);
      case Slow => SlowSampled(cfg, t, Ticks(init), s.h.now);
    }
  }

  // ---------- the theorems ----------

  /**
    In every interleaving of the two loops: results come in the order RS, LD, LQ, each is
    the mean of exactly 2^15 samples measured one after another in its own stage, at least
    20000 PWM ticks after settling began; no accumulator overflows, and every mean fits 32
    bits. Each sample is the current one tick delivered, in RS and LD the direct and in LQ
    the quadrature one, and in LD and LQ it is multiplied by the next tick's sine and cosine.
  */
  lemma Always(cfg: Config, s: State, es: seq<Event>)
    requires Start(s) && forall i :: 0 <= i < |es| ==> Admissible(es[i])
    ensures var t := Run(cfg, s, es);
      && (forall n :: 0 <= n < |t.h.done| ==> Good(t.h.done[n], Turn(n)))
      && DoneDrawn(t.h.done, Ticks(es), s.h.now)
      && Fits(t.m.acc0) && Fits(t.m.acc1) && Isolated(cfg, t)
      && (Ticks(es) != [] ==> Driven(cfg, t, Ticks(es)[|Ticks(es)| - 1].sin))
  {
    RunKeeps(cfg, s, es);
    RunSampled(cfg, s, es);
  }

  /** The 64-bit product shifted right by 31: the quotient rounded down, but for the one product that does not fit. */
  lemma MulQ31Shifts(a: int, b: int)
    requires IsQ31(a) && IsQ31(b) && !(a == b == -0x8000_0000)
    ensures MulQ31(a, b) * 0x8000_0000 <= Times(a, b) < MulQ31(a, b) * 0x8000_0000 + 0x8000_0000
  {
    TimesIsProduct(a, b);
    ProductFits(a, b);
  }

  lemma ProductFits(a: int, b: int)
    requires IsQ31(a) && IsQ31(b) && !(a == b == -0x8000_0000)
    ensures -0x4000_0000_0000_0000 <= a * b < 0x4000_0000_0000_0000
  {
    if a == -0x8000_0000 {
      assert a * b == -0x8000_0000 * b;
    } else if b == -0x8000_0000 {
      assert a * b == -0x8000_0000 * a;
    } else {
      Within(a, b, 0x7fff_ffff);
    }
  }

  lemma Within(a: int, b: int, k: int)
    requires -k <= a <= k && -k <= b <= k
    ensures -(k * k) <= a * b <= k * k
  {
    NotNegative(k - a, k + b);
    NotNegative(k + a, k - b);
    NotNegative(k - a, k - b);
    NotNegative(k + a, k + b);
    assert (k - a) * (k + b) == k * k + k * b - a * k - a * b;
    assert (k + a) * (k - b) == k * k - k * b + a * k - a * b;
    assert (k - a) * (k - b) == k * k - k * b - a * k + a * b;
    assert (k + a) * (k + b) == k * k + k * b + a * k + a * b;
  }

  lemma NotNegative(a: int, b: int)
    requires 0 <= a && 0 <= b
    ensures 0 <= a * b
  {
  }

  function Next(stage: Stage): Stage {
    match stage
    case Idle => Idle
    case RsId => LdId
    case LdId => Rest0
    case Rest0 => LqId
    case LqId => RsId
  }

  /**
    The stages follow one another in the order RS, LD, REST0, LQ, RS; a stage is left only
    by its own slow tick, and never skipped.
  */
  lemma StageOrder(cfg: Config, s: State, e: Event)
    requires Inv(cfg, s) && Admissible(e)
    ensures var t := Step(cfg, s, e);
      && (t.m.stage == s.m.stage || (e.Slow? && t.m.stage == Next(s.m.stage)))
      && (t.m.stage != s.m.stage ==>
        if s.m.stage == Rest0 then s.h.now > s.h.began + MIN_TICKS && t.h.done == s.h.done
        else s.m.counter == 0 && |t.h.done| == |s.h.done| + 1 && t.h.done[|s.h.done|].samples == s.h.taken)
  {
    if e.Slow? && s.m.stage == Rest0 && Settled(s.m) {
      SenseSettled(s);
    }
  }

  /** The results only grow: nothing identified is taken back. */
  lemma {:induction false} ResultsStay(cfg: Config, s: State, es: seq<Event>)
    ensures s.h.done <= Run(cfg, s, es).h.done
    decreases |es|
  {
    if es != [] {
      ResultsStay(cfg, s, es[..|es| - 1]);
    }
  }

  /** A run of PWM ticks alone while sampling uses up the samples one by one and stops at the last. */
  lemma {:induction false} SamplingEnds(cfg: Config, s: State, es: seq<Event>)
    requires Inv(cfg, s) && s.m.sub == Sampling && forall i :: 0 <= i < |es| ==> es[i].Pwm? && Admissible(es[i])
    ensures var t := Run(cfg, s, es);
      && Inv(cfg, t) && t.m.sub == Sampling && t.m.stage == s.m.stage && t.h.done == s.h.done
      && t.m.counter == if s.m.counter > |es| then s.m.counter - |es| else 0
    decreases |es|
  {
    if es != [] {
      var e, rest := es[|es| - 1], es[..|es| - 1];
      SamplingEnds(cfg, s, rest);
      PwmKeeps(cfg, Run(cfg, s, rest), e.sin, e.cos, e.id, e.iq);
    }
  }

  /** So a slow tick after at least that many PWM ticks yields the stage's result and moves on. */
  lemma StageCompletes(cfg: Config, s: State, es: seq<Event>)
    requires Inv(cfg, s) && s.m.sub == Sampling && forall i :: 0 <= i < |es| ==> es[i].Pwm? && Admissible(es[i])
    ensures var t := SlowStep(cfg, Run(cfg, s, es));
      if s.m.counter <= |es|
        then t.m.stage == Next(s.m.stage) && |t.h.done| == |s.h.done| + 1 && Good(t.h.done[|s.h.done|], s.m.stage)
      else t.m.stage == s.m.stage && t.h.done == s.h.done
  {
    SamplingEnds(cfg, s, es);
    SlowKeeps(cfg, Run(cfg, s, es));
  }

  /** A stage that has not begun to settle begins with its next slow tick. */
  lemma SettlingBegins(cfg: Config, s: State)
    requires Inv(cfg, s) && s.m.sub == SettleStart && s.m.stage != Idle
    ensures var t := SlowStep(cfg, s);
      Inv(cfg, t) && t.m.sub == SettleWait && t.m.stage == s.m.stage && t.h.began == t.h.now == s.h.now
  {
    SlowKeeps(cfg, s);
  }

  lemma {:induction false} WaitingStays(cfg: Config, s: State, es: seq<Event>)
    requires Inv(cfg, s) && s.m.sub == SettleWait && forall i :: 0 <= i < |es| ==> es[i].Pwm? && Admissible(es[i])
    ensures var t := Run(cfg, s, es);
      && Inv(cfg, t) && t.m.sub == SettleWait && t.m.stage == s.m.stage && t.h.done == s.h.done
      && t.h.began == s.h.began && t.h.now == s.h.now + |es|
    decreases |es|
  {
    if es != [] {
      var e, rest := es[|es| - 1], es[..|es| - 1];
      WaitingStays(cfg, s, rest);
      PwmKeeps(cfg, Run(cfg, s, rest), e.sin, e.cos, e.id, e.iq);
    }
  }

  /** A slow tick ends the waiting exactly when more than 20000 PWM ticks have passed since it began. */
  lemma WaitingEnds(cfg: Config, s: State, es: seq<Event>)
    requires Inv(cfg, s) && s.m.sub == SettleWait && forall i :: 0 <= i < |es| ==> es[i].Pwm? && Admissible(es[i])
    requires s.m.stage != Idle && s.h.now + |es| - s.h.began < TICKS
    ensures var t := SlowStep(cfg, Run(cfg, s, es));
      && Inv(cfg, t) && t.h.done == s.h.done
      && if s.h.now + |es| - s.h.began <= 20000 then t.m.stage == s.m.stage && t.m.sub == SettleWait
         else if s.m.stage == Rest0 then t.m.stage == LqId && t.m.sub == SettleWait && t.h.began == t.h.now
         else t.m.stage == s.m.stage && t.m.sub == Sampling && t.m.counter == 0x8000
  {
    WaitingStays(cfg, s, es);
    var t := Run(cfg, s, es);
    ElapsedIsReal(t.h.now, t.h.began);
    SlowKeeps(cfg, t);
  }

  /** So RS and LD yield their results after one slow tick, 20001 PWM ticks, another, 32768 PWM ticks and a third. */
  lemma StageRuns(cfg: Config, s: State, wait: seq<Event>, take: seq<Event>)
    requires Inv(cfg, s) && s.m.sub == SettleStart && s.m.stage != Idle && 20000 < |wait| < TICKS && 0x8000 <= |take|
    requires forall i :: 0 <= i < |wait + take| ==> (wait + take)[i].Pwm? && Admissible((wait + take)[i])
    ensures var t := SlowStep(cfg, Run(cfg, SlowStep(cfg, Run(cfg, SlowStep(cfg, s), wait)), take));
      t.m.stage == Next(s.m.stage) && |t.h.done| == |s.h.done| + 1 && Good(t.h.done[|s.h.done|], s.m.stage)
  {
    forall i | 0 <= i < |wait|
      ensures wait[i].Pwm? && Admissible(wait[i])
    {
      assert (wait + take)[i] == wait[i];
    }
    forall i | 0 <= i < |take|
      ensures take[i].Pwm? && Admissible(take[i])
    {
      assert (wait + take)[|wait| + i] == take[i];
    }
    SettlingBegins(cfg, s);
    WaitingEnds(cfg, SlowStep(cfg, s), wait);
    StageCompletes(cfg, SlowStep(cfg, Run(cfg, SlowStep(cfg, s), wait)), take);
  }

  // ---------- the loops as written ----------

  /** The code of case LD_ID alone. */
  function LdPart(s: State): State {
    match s.m.sub
    case SettleStart => Settle(s)
    case SettleWait => Sense(s)
    case Sampling =>
      if s.m.counter == 0 then var t := Conclude(s); t.(m := t.m.(stage := Rest0, sub := SettleStart)) else s
  }

  /** The code of case REST0 alone. */
  function RestPart(s: State): State {
    match s.m.sub
    case SettleStart => Settle(s.(m := s.m.(ecd := 0, ecq := 0)))
    case SettleWait => if Settled(s.m) then s.(m := s.m.(sub := SettleStart, stage := LqId)) else s
    case Sampling => s
  }

  class Commissioning {
    const cfg: Config
    var stage: Stage
    var sub: Sub
    var acc0: int
    var acc1: int
    var settleStart: int
    var counter: int
    var ticks: int
    var id: int
    var iq: int
    var ecd: int
    var ecq: int
    ghost var h: History

    ghost function View(): State
      reads this
    {
      State(Machine(stage, sub, acc0, acc1, settleStart, counter, ticks, id, iq, ecd, ecq), h)
    }

    ghost predicate Valid()
      reads this
    {
      Inv(cfg, View())
    }

    /** SComm_onEnter on a machine that has not run before. */
    constructor (dc: int, hfi: int)
      ensures Start(View()) && Valid()
    {
      cfg := Config(dc, hfi);
      stage, sub := RsId, SettleStart;
      acc0, acc1, settleStart, counter, ticks, id, iq, ecd, ecq := 0, 0, 0, 0, 0, 0, 0, 0, 0;
      h := History(0, 0, [], RsId, []);
    }

    /** The test that guards every accumulation. */
    method Accumulate(direct: int, quadrature: int)
      modifies this`acc0, this`acc1, this`counter, this`h
      ensures View() == Take(old(View()), direct, quadrature)
    {
      if counter > 0 && sub == Sampling {
        acc0 := acc0 + direct;
        acc1 := acc1 + quadrature;
        counter := counter - 1;
        h := h.(taken := h.taken + [Sample(h.now - 1, h.measured, direct, quadrature)]);
      }
    }

    /** SComm_pwmLoop up to the call of Foc_pwmLoop. */
    method InjectSignal(sin: int, cos: int)
      modifies this`acc0, this`acc1, this`counter, this`h, this`ecd, this`ecq
      ensures View() == Inject(cfg, old(View()), sin, cos)
    {
      match stage {
        case RsId =>
          Accumulate(id, 0);
        case LdId =>
          ecd := MulQ31(cfg.hfi, sin);
          ecq := 0;
          Accumulate(MulQ31(id, sin), MulQ31(id, cos));
        case LqId =>
          ecd := 0;
          ecq := MulQ31(cfg.hfi, sin);
          Accumulate(MulQ31(iq, sin), MulQ31(iq, cos));
        case _ =>
      }
    }

    /** SComm_pwmLoop with the currents Foc_pwmLoop leaves in foc.state, and the tick pwmLoop counts. */
    method PwmLoop(sin: int, cos: int, newId: int, newIq: int)
      requires Valid() && IsQ31(newId) && IsQ31(newIq)
      modifies this
      ensures Valid() && View() == PwmStep(cfg, old(View()), sin, cos, newId, newIq)
    {
      PwmKeeps(cfg, View(), sin, cos, newId, newIq);
      InjectSignal(sin, cos);
      id, iq := newId, newIq;
      ticks := if ticks + 1 == TICKS then 0 else ticks + 1;
      h := h.(now := h.now + 1, measured := stage);
    }

    method BeginSettle()
      modifies this`settleStart, this`sub, this`acc0, this`acc1, this`counter, this`h
      ensures View() == Settle(old(View()))
    {
      settleStart := ticks;
      sub := SettleWait;
      acc0 := 0;
      if stage != RsId {
        acc1 := 0;
      }
      counter := OVERSAMPLE;
      h := h.(began := h.now, taken := []);
    }

    method Log()
      modifies this`h
      ensures View() == Conclude(old(View()))
    {
      h := h.(done := h.done
        + [Estimate(stage, h.taken, h.began, Mean(acc0), if stage == RsId then 0 else Mean(acc1))]);
    }

    method CaseRs()
      requires stage == RsId
      modifies this
      ensures View() == RsStep(cfg, old(View()))
    {
      ecd := cfg.dc;
      ecq := 0;
      match sub {
        case SettleStart =>
          BeginSettle();
        case SettleWait =>
          if Elapsed(ticks, settleStart) > MIN_TICKS {
            sub := Sampling;
          }
        case Sampling =>
          if counter == 0 {
            Log();
            stage := LdId;
            sub := SettleStart;
          }
      }
    }

    /** The first third of LD_ID's code, before it falls through. */
    method CaseLd()
      requires stage == LdId
      modifies this
      ensures View() == LdPart(old(View()))
    {
      match sub {
        case SettleStart =>
          BeginSettle();
        case SettleWait =>
          if Elapsed(ticks, settleStart) > MIN_TICKS {
            sub := Sampling;
          }
        case Sampling =>
          if counter == 0 {
            Log();
            sub := SettleStart;
            stage := Rest0;
          }
      }
    }

    /** REST0's code, reached from REST0 and, falling through, from LD_ID. */
    method CaseRest0()
      requires stage != RsId
      modifies this
      ensures View() == RestPart(old(View()))
    {
      match sub {
        case SettleStart =>
          BeginSettle();
          ecd := 0;
          ecq := 0;
        case SettleWait =>
          if Elapsed(ticks, settleStart) > MIN_TICKS {
            sub := SettleStart;
            stage := LqId;
          }
        case Sampling =>
      }
    }

    /** LQ_ID's code, reached from all three. */
    method CaseLq()
      requires stage != RsId
      modifies this
      ensures View() == LqStep(old(View()))
    {
      match sub {
        case SettleStart =>
          BeginSettle();
        case SettleWait =>
          if Elapsed(ticks, settleStart) > MIN_TICKS {
            settleStart := ticks;
            sub := Sampling;
          }
        case Sampling =>
          if counter == 0 {
            Log();
            sub := SettleStart;
            stage := RsId;
          }
      }
    }

    /** SComm_xmcLoop: the cases are chosen by the stage on entry and fall through from LD_ID to the end. */
    method XmcLoop()
      requires Valid()
      modifies this
      ensures Valid() && View() == SlowStep(cfg, old(View()))
    {
      SlowKeeps(cfg, View());
      var entry := stage;
      if entry == RsId {
        CaseRs();
      } else if entry != Idle {
        if entry == LdId {
          CaseLd();
        }
        if entry == LdId || entry == Rest0 {
          CaseRest0();
        }
        CaseLq();
      }
    }
  }
}
