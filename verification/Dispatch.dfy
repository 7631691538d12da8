/** One launch of the kernel over a batch of threads, in any interleaving, and
    the host's search loop. */
module Dispatch {
  import opened Bits
  import opened Sha256
  import opened Kernel
  import opened KernelProof

  /** Where a thread is: before its atomic operation, after winning it, after
      the first of its two stores, or finished. */
  datatype Pc = Start | Won | WroteHi | Done

  /** The buffers `found` and `out`, and all threads. */
  datatype Launch = Launch(found: nat, outHi: Word, outLo: Word, pcs: seq<Pc>)

  ghost predicate Initial(s: Launch) {
    && s.found == 0
    && 1 <= |s.pcs| <= 0x1_0000_0000
    && forall t :: 0 <= t < |s.pcs| ==> s.pcs[t] == Start
  }

  /** One step of thread `t`; each memory operation is a step of its own. */
  ghost function Step(p: Params, s: Launch, t: Word): (s': Launch)
    requires p.Valid() && t < |s.pcs|
    ensures |s'.pcs| == |s.pcs|
  {
    match s.pcs[t]
    case Start =>
      if !Accepts(p, t) then s.(pcs := s.pcs[t := Done])
      else if s.found == 0 then s.(found := 1, pcs := s.pcs[t := Won])
      else s.(pcs := s.pcs[t := Done])
    case Won => s.(outHi := Hi(p, t), pcs := s.pcs[t := WroteHi])
    case WroteHi => s.(outLo := Lo(p, t), pcs := s.pcs[t := Done])
    case Done => s
  }

  /** The launch after a schedule: the threads that take a step, in order. */
  ghost function Run(p: Params, s: Launch, schedule: seq<Word>): (s': Launch)
    requires p.Valid() && forall i :: 0 <= i < |schedule| ==> schedule[i] < |s.pcs|
    ensures |s'.pcs| == |s.pcs|
  {
    if schedule == [] then s
    else Step(p, Run(p, s, schedule[..|schedule| - 1]), schedule[|schedule| - 1])
  }

  /** Thread `w` won the atomic operation and is the only one that stores. */
  ghost predicate Winner(p: Params, s: Launch, w: Word)
    requires p.Valid()
  {
    && w < |s.pcs|
    && Accepts(p, w)
    && s.pcs[w] != Start
    && (s.pcs[w] != Won ==> s.outHi == Hi(p, w))
    && (s.pcs[w] == Done ==> s.outLo == Lo(p, w))
    && forall t :: 0 <= t < |s.pcs| && t != w ==> s.pcs[t] == Start || s.pcs[t] == Done
  }

  ghost predicate NoneYet(p: Params, s: Launch)
    requires p.Valid()
  {
    && s.found == 0
    && |s.pcs| <= 0x1_0000_0000
    && forall t :: 0 <= t < |s.pcs| ==>
         s.pcs[t] == Start || (s.pcs[t] == Done && !Accepts(p, t))
  }

  ghost predicate Invariant(p: Params, s: Launch)
    requires p.Valid()
  {
    NoneYet(p, s) || (s.found == 1 && exists w: Word :: Winner(p, s, w))
  }

  lemma StepKeepsInvariant(p: Params, s: Launch, t: Word)
    requires p.Valid() && t < |s.pcs| && Invariant(p, s)
    ensures Invariant(p, Step(p, s, t))
  {
    hide Accepts, Hi, Lo;
    var s' := Step(p, s, t);
    if NoneYet(p, s) {
      if s.pcs[t] == Start && Accepts(p, t) {
        assert Winner(p, s', t);
      }
    } else {
      var w: Word :| Winner(p, s, w);
      assert Winner(p, s', w);
    }
  }

  lemma {:induction false} RunKeepsInvariant(p: Params, s: Launch, schedule: seq<Word>)
    requires p.Valid() && Initial(s)
    requires forall i :: 0 <= i < |schedule| ==> schedule[i] < |s.pcs|
    ensures Invariant(p, Run(p, s, schedule))
  {
    if schedule != [] {
      var before := schedule[..|schedule| - 1];
      RunKeepsInvariant(p, s, before);
      StepKeepsInvariant(p, Run(p, s, before), schedule[|schedule| - 1]);
    }
  }

  ghost predicate Finished(s: Launch) {
    forall t :: 0 <= t < |s.pcs| ==> s.pcs[t] == Done
  }

  /** What the host reads once every thread has finished. */
  function Reported(s: Launch): nat {
    s.outHi * 0x1_0000_0000 + s.outLo
  }

  /** In every interleaving, `found` is set exactly when some thread's token
      reaches the level, and the counter read back is that of one such thread,
      never a mix of two. */
  lemma LaunchReports(doc: seq<Byte>, level: nat, base: nat, s: Launch, schedule: seq<Word>)
    requires |doc| < DOC_LIMIT && 1 <= level <= 64 && base < 0x1_0000_0000_0000_0000
    requires Initial(s) && forall i :: 0 <= i < |schedule| ==> schedule[i] < |s.pcs|
    requires Finished(Run(ParamsFor(doc, level, base), s, schedule))
    ensures var end := Run(ParamsFor(doc, level, base), s, schedule);
      && (end.found != 0 <==> exists t: Word :: t < |s.pcs| && Reaches(doc, level, base, t))
      && (end.found != 0 ==> exists w: Word ::
            w < |s.pcs| && Reaches(doc, level, base, w) && Reported(end) == Counter(base, w))
  {
    var p := ParamsFor(doc, level, base);
    RunKeepsInvariant(p, s, schedule);
    EndOfLaunch(doc, level, base, Run(p, s, schedule));
  }

  /** Thread `t` of a dispatch at `base` makes a token of the level. */
  ghost predicate Reaches(doc: seq<Byte>, level: nat, base: nat, t: Word)
    requires |doc| < DOC_LIMIT
  {
    TokenLevel(doc, BigEndian64(Counter(base, t))) >= level
  }

  lemma EndOfLaunch(doc: seq<Byte>, level: nat, base: nat, end: Launch)
    requires |doc| < DOC_LIMIT && 1 <= level <= 64 && base < 0x1_0000_0000_0000_0000
    requires Invariant(ParamsFor(doc, level, base), end) && Finished(end)
    ensures end.found != 0 <==> exists t: Word :: t < |end.pcs| && Reaches(doc, level, base, t)
    ensures end.found != 0 ==> exists w: Word ::
      w < |end.pcs| && Reaches(doc, level, base, w) && Reported(end) == Counter(base, w)
  {
    hide Accepts, Hi, Lo, TokenLevel, BigEndian64, Counter;
    var p := ParamsFor(doc, level, base);
    forall t: Word
      ensures Accepts(p, t) <==> Reaches(doc, level, base, t)
    {
      KernelRefinesChecker(doc, level, base, t);
    }
    if end.found != 0 {
      var w: Word :| Winner(p, end, w);
      CounterHalves(p, base, w);
      assert Reaches(doc, level, base, w);
      assert Reported(end) == Counter(base, w);
    } else {
      forall t: Word | t < |end.pcs|
        ensures !Reaches(doc, level, base, t)
      {
        assert end.pcs[t] == Done;
      }
    }
  }

  // ---- the host ------------------------------------------------------------

  /** Steps the threads still have to take. */
  function Work(pcs: seq<Pc>): nat {
    if pcs == [] then 0
    else Work(pcs[1..]) + (match pcs[0] case Start => 3 case Won => 2 case WroteHi => 1 case Done => 0)
  }

  lemma {:induction false} WorkDrops(pcs: seq<Pc>, t: nat, pc: Pc)
    requires t < |pcs|
    requires Work([pc]) < Work([pcs[t]])
    ensures Work(pcs[t := pc]) < Work(pcs)
  {
    if t == 0 {
      assert pcs[t := pc][1..] == pcs[1..];
    } else {
      assert pcs[t := pc][1..] == pcs[1..][t - 1 := pc];
      WorkDrops(pcs[1..], t - 1, pc);
    }
  }

  /** One step of an unfinished thread of `mine`. */
  method ThreadStep(p: Params, s: Launch, t: Word) returns (s': Launch)
    requires p.Valid() && t < |s.pcs| && s.pcs[t] != Done
    requires s.found == 0 || s.found == 1
    ensures s' == Step(p, s, t)
    ensures Work(s'.pcs) < Work(s.pcs)
  {
    hide Accepts, Hi, Lo;
    var accept, hi, lo := MineThread(p, t);
    s' := s;
    match s.pcs[t] {
      case Start =>
        if accept {
          s' := s.(found := 1, pcs := s.pcs[t := if s.found == 0 then Won else Done]);
        } else {
          s' := s.(pcs := s.pcs[t := Done]);
        }
      case Won => s' := s.(outHi := hi, pcs := s.pcs[t := WroteHi]);
      case WroteHi => s' := s.(outLo := lo, pcs := s.pcs[t := Done]);
    }
    WorkDrops(s.pcs, t, s'.pcs[t]);
  }

  /** `miner_dispatch`: the threads run in an arbitrary order, one step at a
      time, until all have finished. */
  method MinerDispatch(prefixWords: seq<Word>, ghost doc: seq<Byte>, level: nat, base: nat, batch: nat)
    returns (solved: bool, counter: nat)
    requires |doc| < DOC_LIMIT && prefixWords == Words(Hash(doc))
    requires 1 <= level <= 64 && base < 0x1_0000_0000_0000_0000 && 1 <= batch <= 0x1_0000_0000
    ensures solved <==> exists t: Word :: t < batch && Reaches(doc, level, base, t)
    ensures solved ==> exists w: Word ::
      w < batch && Reaches(doc, level, base, w) && counter == Counter(base, w)
  {
    hide Accepts, Hi, Lo, Words, TokenLevel, Hash, Step, Work;
    var p := Params(prefixWords, level, base / 0x1_0000_0000, base % 0x1_0000_0000);
    assert p == ParamsFor(doc, level, base);
    var s := Launch(0, 0, 0, seq(batch, _ => Start));
    while exists t: nat :: t < batch && s.pcs[t] != Done
      invariant |s.pcs| == batch
      invariant Invariant(p, s)
      decreases Work(s.pcs)
    {
      var t: nat :| t < batch && s.pcs[t] != Done;
      StepKeepsInvariant(p, s, t);
      s := ThreadStep(p, s, t);
    }
    EndOfLaunch(doc, level, base, s);
    solved := s.found != 0;
    counter := s.outHi * 0x1_0000_0000 + s.outLo;
  }
}
