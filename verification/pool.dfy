/**
 The pool of animated shapes: its initial population, the per-frame update
 pass over every slot, and the control operations that add shapes, clear
 the pool and set its size.
 */
module Pool {
  import opened Factory
  import opened Engine

  function Max(a: int, b: int): (m: int)
    ensures m >= a && m >= b && (m == a || m == b)
  {
    if a >= b then a else b
  }

  /** The shapes of one animation together with the configuration and canvas size they use. */
  class QuadPool {
    var cfg: Config
    var width: real
    var height: real
    var quads: seq<Quad>

    ghost predicate Valid()
      reads this
    {
      && cfg.Valid() && width >= 0.0 && height >= 0.0
      && forall i :: 0 <= i < |quads| ==> QuadValid(quads[i], cfg)
    }

    /** Every shape's transition started no later than now: the clock has not run backwards. */
    ghost predicate StartedBy(now: real)
      reads this
    {
      forall i :: 0 <= i < |quads| ==> quads[i].lastTransitionTime <= now
    }

    /** Initial population: numQuadrilaterals fresh shapes, one per batch of draws, in order. */
    constructor (cfg: Config, width: real, height: real, now: real, draws: seq<ShapeDraws>)
      requires cfg.Valid() && width >= 0.0 && height >= 0.0
      requires |draws| == cfg.numQuadrilaterals
      requires forall i :: 0 <= i < |draws| ==> ValidShapeDraws(draws[i])
      ensures Valid() && StartedBy(now)
      ensures this.cfg == cfg && this.width == width && this.height == height
      ensures |quads| == cfg.numQuadrilaterals
      ensures forall i :: 0 <= i < |quads| ==> quads[i] == CreateQuadrilateral(cfg, width, height, now, draws[i])
    {
      this.cfg := cfg;
      this.width := width;
      this.height := height;
      var created: seq<Quad> := [];
      var i := 0;
      while i < cfg.numQuadrilaterals
        invariant 0 <= i <= cfg.numQuadrilaterals && |created| == i
        invariant forall j :: 0 <= j < i ==> created[j] == CreateQuadrilateral(cfg, width, height, now, draws[j])
        invariant forall j :: 0 <= j < i ==> QuadValid(created[j], cfg) && created[j].lastTransitionTime <= now
      {
        CreatedIsValid(cfg, width, height, now, draws[i]);
        created := created + [CreateQuadrilateral(cfg, width, height, now, draws[i])];
        i := i + 1;
      }
      quads := created;
    }

    /** addQuadrilateral: one fresh shape is appended; the others are untouched. */
    method AddQuadrilateral(now: real, d: ShapeDraws)
      requires Valid() && ValidShapeDraws(d)
      modifies this`quads
      ensures Valid()
      ensures quads == old(quads) + [CreateQuadrilateral(cfg, width, height, now, d)]
      ensures |quads| == old(|quads|) + 1
    {
      CreatedIsValid(cfg, width, height, now, d);
      quads := quads + [CreateQuadrilateral(cfg, width, height, now, d)];
    }

    /** clear: the pool becomes empty. */
    method Clear()
      requires Valid()
      modifies this`quads
      ensures Valid() && quads == []
    {
      quads := [];
    }

    /**
     setCount: growing appends fresh shapes until there are exactly count;
     shrinking to a count >= 0 keeps exactly the first count shapes; a
     negative count removes that many shapes from the end (at most all of
     them), as splice does with a negative start; an equal count changes
     nothing.
     */
    method SetCount(count: int, now: real, draws: seq<ShapeDraws>)
      requires Valid()
      requires count > |quads| ==> |draws| >= count - |quads|
      requires forall i :: 0 <= i < |draws| ==> ValidShapeDraws(draws[i])
      modifies this`quads
      ensures Valid()
      ensures count == old(|quads|) ==> quads == old(quads)
      ensures count > old(|quads|) ==>
        && |quads| == count
        && quads[..old(|quads|)] == old(quads)
        && forall i :: old(|quads|) <= i < count ==>
             quads[i] == CreateQuadrilateral(cfg, width, height, now, draws[i - old(|quads|)])
      ensures 0 <= count < old(|quads|) ==> quads == old(quads)[..count]
      ensures count < 0 ==> quads == old(quads)[..Max(old(|quads|) + count, 0)]
    {
      var start := |quads|;
      if count > start {
        var i := start;
        while i < count
          invariant start <= i <= count && |quads| == i
          invariant quads[..start] == old(quads)
          invariant forall j :: start <= j < i ==>
            quads[j] == CreateQuadrilateral(cfg, width, height, now, draws[j - start])
          invariant Valid()
        {
          CreatedIsValid(cfg, width, height, now, draws[i - start]);
          quads := quads + [CreateQuadrilateral(cfg, width, height, now, draws[i - start])];
          i := i + 1;
        }
      } else if count < start {
        quads := quads[..Max(if count >= 0 then count else start + count, 0)];
      }
    }

    /**
     updateQuadrilaterals: every slot is ticked once, in order, with its own
     draws; slot i afterwards holds exactly Tick of what it held before (a
     replaced shape included), no other slot is affected by it, the pool
     keeps its size and its invariant, and no transition starts after now.
     */
    method Update(now: real, draws: seq<TickDraws>)
      requires Valid() && StartedBy(now)
      requires |draws| == |quads|
      requires forall i :: 0 <= i < |draws| ==> ValidTickDraws(draws[i])
      modifies this`quads
      ensures Valid() && StartedBy(now)
      ensures |quads| == old(|quads|)
      ensures forall i :: 0 <= i < |quads| ==> quads[i] == Tick(old(quads)[i], cfg, width, height, now, draws[i])
    {
      var i := 0;
      while i < |quads|
        invariant 0 <= i <= |quads| == old(|quads|)
        invariant forall j :: 0 <= j < i ==> quads[j] == Tick(old(quads)[j], cfg, width, height, now, draws[j])
        invariant forall j :: i <= j < |quads| ==> quads[j] == old(quads)[j]
        invariant Valid() && StartedBy(now)
      {
        TickPreservesValid(quads[i], cfg, width, height, now, draws[i]);
        var ticked := TickQuad(quads[i], cfg, width, height, now, draws[i]);
        quads := quads[i := ticked];
        i := i + 1;
      }
    }
  }
}
