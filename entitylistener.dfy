/**
  Pre-persist identifier assignment (`SnowflakeEntityListener`). Before an
  entity is written, the listener walks the entity class's declared fields in
  the order `getDeclaredFields` returns them; for every field marked `@SnowflakeId` whose current value is null it
  asks the shared generator for `nextId()` and stores the result in the field.

  Reflection is replaced by data: an entity is an array of `Field` values in
  the order `getDeclaredFields` returns them (Java does not fix that order;
  common JVMs use declaration order), each telling whether it carries the annotation, whether
  reflective access to it succeeds, and its current value (`None` is null). The
  listener's static `generator` field is a `GeneratorSlot` object that every
  listener instance refers to.
 */
module EntityListener {
  import opened JavaLang

  /** One declared field of an entity: its annotation, its accessibility, and its current value. */
  datatype Field = Field(annotated: bool, accessible: bool, value: Option<Long>)

  /** How one run of `generateId` ends. */
  datatype Outcome =
    | Completed
      /** `setAccessible(true)` threw for the annotated field at `index` (not wrapped); no id was drawn for it. */
    | AccessFailure(index: nat)
      /** No generator was bound when the annotated null field at `index` needed an id: a `NullPointerException`. */
    | NoGenerator(index: nat)

  /** An annotated field that is still null: the listener assigns it an id. */
  predicate NeedsId(x: Field) {
    x.annotated && x.value.None?
  }

  /**
    Processing field `x` throws: `setAccessible(true)` fails on an annotated
    field that cannot be made accessible, and asking for an id fails when no
    generator is bound.
    Fields without the annotation are filtered out before any access.
   */
  predicate Fails(x: Field, bound: bool) {
    x.annotated && (!x.accessible || (x.value.None? && !bound))
  }

  /** The index of the first field whose processing throws, or `|fs|` when none does. */
  function Stop(fs: seq<Field>, bound: bool): (r: nat)
    ensures r <= |fs|
  {
    if fs == [] then 0
    else if Fails(fs[0], bound) then 0
    else 1 + Stop(fs[1..], bound)
  }

  /** `Stop` is the first failing index: no field before it fails, and the field at it does. */
  lemma {:induction false} StopIsFirstFailure(fs: seq<Field>, bound: bool)
    ensures forall j :: 0 <= j < Stop(fs, bound) ==> !Fails(fs[j], bound)
    ensures Stop(fs, bound) < |fs| ==> Fails(fs[Stop(fs, bound)], bound)
  {
    if fs != [] && !Fails(fs[0], bound) {
      StopIsFirstFailure(fs[1..], bound);
      assert forall j :: 1 <= j < |fs| ==> fs[j] == fs[1..][j - 1];
    }
  }

  /** The outcome `generateId` reports on fields `fs`, with or without a bound generator. */
  function ExpectedOutcome(fs: seq<Field>, bound: bool): (o: Outcome)
  {
    var s := Stop(fs, bound);
    if s == |fs| then Completed
    else if !fs[s].accessible then AccessFailure(s)
    else NoGenerator(s)
  }

  /**
    What the reported outcome means: completion exactly when no field throws;
    otherwise the index of the first field that throws, with the reason.
   */
  lemma OutcomeMeaning(fs: seq<Field>, bound: bool)
    ensures var o := ExpectedOutcome(fs, bound);
      (o.Completed? <==> forall j :: 0 <= j < |fs| ==> !Fails(fs[j], bound)) &&
      (o.AccessFailure? ==> o.index < |fs| && fs[o.index].annotated && !fs[o.index].accessible) &&
      (o.NoGenerator? ==> o.index < |fs| && !bound && NeedsId(fs[o.index]) && fs[o.index].accessible) &&
      (!o.Completed? ==> forall j :: 0 <= j < o.index ==> !Fails(fs[j], bound))
  {
    StopIsFirstFailure(fs, bound);
  }

  /** How many fields of `fs` need an id. */
  function CountNeedsId(fs: seq<Field>): (n: nat)
    ensures n <= |fs|
  {
    if fs == [] then 0
    else CountNeedsId(fs[..|fs| - 1]) + (if NeedsId(fs[|fs| - 1]) then 1 else 0)
  }

  /** `fs` with the fields that need an id given `ids`, one each, in array order. */
  function Fill(fs: seq<Field>, ids: seq<Long>): (r: seq<Field>)
    requires |ids| == CountNeedsId(fs)
    ensures |r| == |fs|
  {
    if fs == [] then []
    else
      var last := fs[|fs| - 1];
      if NeedsId(last) then Fill(fs[..|fs| - 1], ids[..|ids| - 1]) + [last.(value := Some(ids[|ids| - 1]))]
      else Fill(fs[..|fs| - 1], ids) + [last]
  }

  // ---------------------------------------------------------------------------
  // What Fill does, field by field
  // ---------------------------------------------------------------------------

  /** Counting over a prefix never exceeds counting over the whole, and misses a needing field at its end. */
  lemma {:induction false} CountPrefix(fs: seq<Field>, j: nat)
    requires j < |fs|
    ensures CountNeedsId(fs[..j]) + (if NeedsId(fs[j]) then 1 else 0) <= CountNeedsId(fs)
  {
    var init := fs[..|fs| - 1];
    if j < |fs| - 1 {
      CountPrefix(init, j);
      assert init[..j] == fs[..j];
    } else {
      assert fs[..j] == init;
    }
  }

  /**
    Field `j` after `Fill`: a field that needed an id now holds the id whose
    position is the number of needing fields before it; every other field,
    whether unannotated or already set, is exactly as it was.
   */
  lemma {:induction false} FillAt(fs: seq<Field>, ids: seq<Long>, j: nat)
    requires |ids| == CountNeedsId(fs) && j < |fs|
    ensures CountNeedsId(fs[..j]) + (if NeedsId(fs[j]) then 1 else 0) <= |ids|
    ensures Fill(fs, ids)[j] ==
              if NeedsId(fs[j]) then fs[j].(value := Some(ids[CountNeedsId(fs[..j])])) else fs[j]
  {
    CountPrefix(fs, j);
    var init := fs[..|fs| - 1];
    if j < |fs| - 1 {
      var initIds := if NeedsId(fs[|fs| - 1]) then ids[..|ids| - 1] else ids;
      FillAt(init, initIds, j);
      assert init[..j] == fs[..j];
    } else {
      assert fs[..j] == init;
    }
  }

  /** After `Fill` no field needs an id. */
  lemma FillSatisfies(fs: seq<Field>, ids: seq<Long>)
    requires |ids| == CountNeedsId(fs)
    ensures forall j :: 0 <= j < |fs| ==> !NeedsId(Fill(fs, ids)[j])
    ensures CountNeedsId(Fill(fs, ids)) == 0
  {
    forall j | 0 <= j < |fs| ensures !NeedsId(Fill(fs, ids)[j]) {
      FillAt(fs, ids, j);
    }
    NoneNeedIdCount(Fill(fs, ids));
  }

  lemma {:induction false} NoneNeedIdCount(fs: seq<Field>)
    requires forall j :: 0 <= j < |fs| ==> !NeedsId(fs[j])
    ensures CountNeedsId(fs) == 0
  {
    if fs != [] {
      NoneNeedIdCount(fs[..|fs| - 1]);
    }
  }

  /** With nothing to fill, `Fill` changes nothing. */
  lemma {:induction false} FillNothing(fs: seq<Field>)
    requires CountNeedsId(fs) == 0
    ensures Fill(fs, []) == fs
  {
    if fs != [] {
      FillNothing(fs[..|fs| - 1]);
    }
  }

  /** Without a generator, no field before the stopping point needs an id. */
  lemma {:induction false} UnboundNeedsNone(fs: seq<Field>, i: nat)
    requires i <= Stop(fs, false)
    ensures CountNeedsId(fs[..i]) == 0
  {
    if i > 0 {
      StopIsFirstFailure(fs, false);
      assert fs[..i][..i - 1] == fs[..i - 1];
      UnboundNeedsNone(fs, i - 1);
    }
  }

  /**
    A completed run leaves nothing for a second run: it completes again, with
    or without a generator, needs no id and changes no field.
   */
  lemma SecondRunIsNoOp(fs: seq<Field>, ids: seq<Long>, bound: bool, boundAgain: bool)
    requires |ids| == CountNeedsId(fs)
    requires ExpectedOutcome(fs, bound) == Completed
    ensures var after := Fill(fs, ids);
      ExpectedOutcome(after, boundAgain) == Completed && Stop(after, boundAgain) == |after| &&
      CountNeedsId(after) == 0 && Fill(after, []) == after
  {
    var after := Fill(fs, ids);
    OutcomeMeaning(fs, bound);
    forall j | 0 <= j < |after| ensures !Fails(after[j], boundAgain) {
      FillAt(fs, ids, j);
    }
    OutcomeMeaning(after, boundAgain);
    StopIsFirstFailure(after, boundAgain);
    FillSatisfies(fs, ids);
    FillNothing(after);
  }

  /** Two entities that agree on their annotations and on every annotated field. */
  predicate AgreeOnAnnotated(fs: seq<Field>, gs: seq<Field>) {
    |fs| == |gs| &&
    forall j :: 0 <= j < |fs| ==> fs[j].annotated == gs[j].annotated && (fs[j].annotated ==> fs[j] == gs[j])
  }

  /**
    Unannotated fields are never read: entities that differ only in them stop
    at the same place, report the same outcome and need the same number of ids
    in every prefix.
   */
  lemma {:induction false} UnannotatedFieldsIgnored(fs: seq<Field>, gs: seq<Field>, bound: bool, k: nat)
    requires AgreeOnAnnotated(fs, gs) && k <= |fs|
    ensures Stop(fs, bound) == Stop(gs, bound)
    ensures ExpectedOutcome(fs, bound) == ExpectedOutcome(gs, bound)
    ensures CountNeedsId(fs[..k]) == CountNeedsId(gs[..k])
  {
    SameStop(fs, gs, bound);
    StopIsFirstFailure(fs, bound);
    SameCount(fs, gs, k);
  }

  lemma {:induction false} SameStop(fs: seq<Field>, gs: seq<Field>, bound: bool)
    requires AgreeOnAnnotated(fs, gs)
    ensures Stop(fs, bound) == Stop(gs, bound)
  {
    if fs != [] {
      assert Fails(fs[0], bound) == Fails(gs[0], bound);
      assert AgreeOnAnnotated(fs[1..], gs[1..]) by {
        forall j | 0 <= j < |fs| - 1
          ensures fs[1..][j].annotated == gs[1..][j].annotated
          ensures fs[1..][j].annotated ==> fs[1..][j] == gs[1..][j]
        {
          assert fs[1..][j] == fs[j + 1] && gs[1..][j] == gs[j + 1];
        }
      }
      SameStop(fs[1..], gs[1..], bound);
    }
  }

  lemma {:induction false} SameCount(fs: seq<Field>, gs: seq<Field>, k: nat)
    requires AgreeOnAnnotated(fs, gs) && k <= |fs|
    ensures CountNeedsId(fs[..k]) == CountNeedsId(gs[..k])
  {
    if k > 0 {
      SameCount(fs, gs, k - 1);
      assert fs[..k][..k - 1] == fs[..k - 1];
      assert gs[..k][..k - 1] == gs[..k - 1];
      assert NeedsId(fs[k - 1]) == NeedsId(gs[k - 1]);
    }
  }

  // ---------------------------------------------------------------------------
  // The generator, the shared binding, and the listener
  // ---------------------------------------------------------------------------

  /**
    The id source `SnowflakeGenerator.nextId()`. Its real algorithm lives in a
    library outside this model, so its contract promises only that it returns
    a `long` and records it in `issued`; the counter below is a stand-in body.
   */
  class SnowflakeGenerator {
    var counter: Long
    ghost var issued: seq<Long>

    constructor ()
      ensures issued == []
    {
      counter := 0;
      issued := [];
    }

    method NextId() returns (id: Long)
      modifies this
      ensures issued == old(issued) + [id]
    {
      id := counter;
      counter := if counter < MaxLong then counter + 1 else MinLong;
      issued := issued + [id];
    }
  }

  /** The listener's static `generator` field: one slot that every listener instance shares. */
  class GeneratorSlot {
    var generator: SnowflakeGenerator?

    constructor ()
      ensures generator == null
    {
      generator := null;
    }
  }

  class SnowflakeEntityListener {
    const slot: GeneratorSlot

    constructor (slot: GeneratorSlot)
      ensures this.slot == slot
    {
      this.slot := slot;
    }

    /** `setGenerator`: rebinds the shared generator for every listener on the same slot. */
    method SetGenerator(gen: SnowflakeGenerator?)
      modifies slot
      ensures slot.generator == gen
    {
      slot.generator := gen;
    }

    /**
      `generateId`: the fields before the stopping point that needed an id get
      ids from the bound generator, one `nextId()` call each, in
      array order; the field the run stopped at and every later field
      are untouched; nothing else of the generator's history changes.
     */
    method GenerateId(entity: array<Field>) returns (outcome: Outcome)
      modifies entity, slot.generator
      ensures outcome == ExpectedOutcome(old(entity[..]), slot.generator != null)
      ensures slot.generator == null ==> entity[..] == old(entity[..])
      ensures slot.generator != null ==>
                RunEffect(old(entity[..]), old(slot.generator.issued), entity[..], slot.generator.issued)
    {
      var gen := slot.generator;
      ghost var f := entity[..];
      ghost var start := if gen != null then gen.issued else [];
      ghost var ids: seq<Long> := [];
      var i := 0;
      outcome := Completed;
      ProcessedStart(f);
      while i < entity.Length
        invariant 0 <= i <= entity.Length && i <= Stop(f, gen != null)
        invariant Processed(f, i, ids, entity[..])
        invariant gen != null ==> gen.issued == start + ids
        invariant gen == null ==> ids == []
      {
        ghost var current := entity[..];
        ProcessedStep(f, i, ids, current, 0);
        var thrown;
        ghost var id;
        thrown, id := VisitField(entity, i, gen);
        if !thrown.Completed? {
          outcome := thrown;
          if gen != null {
            Finish(f, true, i, ids, current, start, gen.issued);
          } else {
            Finish(f, false, i, ids, current, [], []);
          }
          return;
        }
        if NeedsId(f[i]) {
          ProcessedStep(f, i, ids, current, id);
          AppendOne(start, ids, id);
          ids := ids + [id];
        }
        StopAdvance(f, gen != null, i);
        i := i + 1;
      }
      if gen != null {
        Finish(f, true, i, ids, entity[..], start, gen.issued);
      } else {
        Finish(f, false, i, ids, entity[..], [], []);
      }
    }
  }

  /**
    The body of the `forEach` lambda for the annotated field at `i`: it makes
    the field accessible, reads it, and when the value is null stores
    `gen.nextId()` in it. It
    reports `Completed` when nothing was thrown, and otherwise which exception
    ended the run. Fields without the annotation are filtered out beforehand,
    so for them it does nothing.
   */
  method VisitField(entity: array<Field>, i: nat, gen: SnowflakeGenerator?) returns (thrown: Outcome, ghost id: Long)
    requires i < entity.Length
    modifies entity, gen
    ensures var x := old(entity[i]);
      thrown == if !Fails(x, gen != null) then Completed
                else if !x.accessible then AccessFailure(i)
                else NoGenerator(i)
    ensures thrown.Completed? && NeedsId(old(entity[i])) ==>
              gen != null && gen.issued == old(gen.issued) + [id] &&
              entity[..] == old(entity[..])[i := old(entity[i]).(value := Some(id))]
    ensures !(thrown.Completed? && NeedsId(old(entity[i]))) ==>
              entity[..] == old(entity[..]) && (gen != null ==> gen.issued == old(gen.issued))
  {
    id := 0;
    var field := entity[i];
    if !field.annotated {
      return Completed, id;
    }
    if !field.accessible {
      return AccessFailure(i), id;
    }
    if field.value.None? {
      if gen == null {
        return NoGenerator(i), id;
      }
      var next := gen.NextId();
      entity[i] := field.(value := Some(next));
      id := next;
    }
    thrown := Completed;
  }

  /**
    The effect of one `generateId` run with a bound generator, on values: the
    generator's history `before` grew to `issued` by exactly one id per field
    that needed one before the stopping point, and the entity `f` became
    `after`, those fields holding the new ids in order and every other field
    as it was.
   */
  ghost predicate RunEffect(f: seq<Field>, before: seq<Long>, after: seq<Field>, issued: seq<Long>) {
    var stop := Stop(f, true);
    |before| <= |issued| && issued[..|before|] == before &&
    |issued| - |before| == CountNeedsId(f[..stop]) &&
    after == Fill(f[..stop], issued[|before|..]) + f[stop..]
  }

  /**
    The loop invariant of `GenerateId`, on values: the first `i` fields of `f`
    have been processed with `ids`, and `current` is the result followed by
    the untouched remaining fields.
   */
  ghost predicate Processed(f: seq<Field>, i: nat, ids: seq<Long>, current: seq<Field>) {
    i <= |f| && |ids| == CountNeedsId(f[..i]) && current == Fill(f[..i], ids) + f[i..]
  }

  lemma ProcessedStart(f: seq<Field>)
    ensures Processed(f, 0, [], f)
  {
    assert f[..0] == [] && f[0..] == f;
  }

  /** One step of `GenerateId`'s loop: field `i` is still as it was, and processing it extends the prefix. */
  lemma ProcessedStep(f: seq<Field>, i: nat, ids: seq<Long>, current: seq<Field>, id: Long)
    requires Processed(f, i, ids, current) && i < |f|
    ensures current[i] == f[i]
    ensures NeedsId(f[i]) ==> Processed(f, i + 1, ids + [id], current[i := f[i].(value := Some(id))])
    ensures !NeedsId(f[i]) ==> Processed(f, i + 1, ids, current)
  {
    var p := f[..i + 1];
    assert p[..i] == f[..i] && p[i] == f[i];
    assert f[i..] == [f[i]] + f[i + 1..];
    if NeedsId(f[i]) {
      assert (ids + [id])[..|ids|] == ids;
    }
  }

  /** A field that does not throw lets the loop go on past it. */
  lemma StopAdvance(f: seq<Field>, bound: bool, i: nat)
    requires i < |f| && i <= Stop(f, bound) && !Fails(f[i], bound)
    ensures i + 1 <= Stop(f, bound)
  {
    StopIsFirstFailure(f, bound);
  }

  /** The facts `GenerateId` needs when it leaves its loop at index `i`. */
  lemma Finish(f: seq<Field>, bound: bool, i: nat, ids: seq<Long>, current: seq<Field>,
               start: seq<Long>, issued: seq<Long>)
    requires i <= Stop(f, bound) && Processed(f, i, ids, current)
    requires i == |f| || Fails(f[i], bound)
    requires !bound ==> ids == []
    requires bound ==> issued == start + ids
    ensures Stop(f, bound) == i
    ensures ExpectedOutcome(f, bound) ==
              if i == |f| then Completed else if !f[i].accessible then AccessFailure(i) else NoGenerator(i)
    ensures !bound ==> current == f
    ensures bound ==> RunEffect(f, start, current, issued)
  {
    StopIsFirstFailure(f, bound);
    if !bound {
      UnboundNeedsNone(f, i);
      FillNothing(f[..i]);
      assert f[..i] + f[i..] == f;
    } else {
      assert issued[..|start|] == start && issued[|start|..] == ids;
    }
  }

  /** Appending one drawn id to the history, regrouped. */
  lemma AppendOne(start: seq<Long>, ids: seq<Long>, id: Long)
    ensures start + (ids + [id]) == (start + ids) + [id]
  {
  }

  /**
    Running the listener twice on one entity: when the first run completes,
    the second calls `nextId()` zero times, changes no field and completes.
   */
  method GenerateIdTwice(listener: SnowflakeEntityListener, entity: array<Field>)
    returns (first: Outcome, second: Outcome)
    modifies entity, listener.slot.generator
    ensures first == ExpectedOutcome(old(entity[..]), listener.slot.generator != null)
    ensures first == Completed ==> second == Completed
    ensures first == Completed && listener.slot.generator == null ==> entity[..] == old(entity[..])
    ensures first == Completed && listener.slot.generator != null ==>
              var before := old(listener.slot.generator.issued);
              var g := listener.slot.generator;
              |before| <= |g.issued| && g.issued[..|before|] == before &&
              |g.issued| - |before| == CountNeedsId(old(entity[..])) &&
              entity[..] == Fill(old(entity[..]), g.issued[|before|..])
  {
    ghost var f := entity[..];
    ghost var g := listener.slot.generator;
    ghost var before := if g != null then g.issued else [];
    first := listener.GenerateId(entity);
    ghost var mid := entity[..];
    ghost var midIssued := if g != null then g.issued else [];
    if first == Completed && g != null {
      ghost var ids := midIssued[|before|..];
      assert f[..|f|] == f && f[|f|..] == [];
      assert mid == Fill(f, ids);
      SecondRunIsNoOp(f, ids, true, true);
      assert mid[..|mid|] == mid && mid[|mid|..] == [];
    }
    second := listener.GenerateId(entity);
    if first == Completed && g != null {
      assert |g.issued| == |midIssued|;
      assert g.issued[|midIssued|..] == [];
      assert g.issued == midIssued;
      assert entity[..] == mid;
    }
  }

  /**
    All listeners share one binding: after listener `a` binds `g1` and listener
    `b` then binds `g2`, a run through `a` draws its ids from `g2` and `g1` is
    never asked.
   */
  method LatestBindingWins(a: SnowflakeEntityListener, b: SnowflakeEntityListener,
                           g1: SnowflakeGenerator, g2: SnowflakeGenerator, entity: array<Field>)
    returns (outcome: Outcome)
    requires a.slot == b.slot && g1 != g2
    modifies a.slot, g2, entity
    ensures a.slot.generator == g2 && g1.issued == old(g1.issued)
    ensures outcome == ExpectedOutcome(old(entity[..]), true)
    ensures RunEffect(old(entity[..]), old(g2.issued), entity[..], g2.issued)
  {
    a.SetGenerator(g1);
    b.SetGenerator(g2);
    outcome := a.GenerateId(entity);
  }
}
