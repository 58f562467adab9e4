/**
 * The reflection screen of components/Reflection.tsx: when reflecting is
 * unlocked, when a new reflection may be requested, and what a request does
 * to the screen's state and to the store.
 */
module ReflectionPanel {
  import opened Wrappers
  import opened Journal
  import opened Storage
  import opened Gemini
  import opened Sequences

  /** A stored reflection younger than this (24 hours, in milliseconds) blocks a new request. */
  const REGENERATE_AFTER_MILLIS: int := 86400000

  /** Reflecting is unlocked once there are at least `LEXICAL_THRESHOLD` entries. */
  function CanReflect(entryCount: nat): (r: bool)
    ensures r <==> entryCount >= 30
  {
    entryCount >= LEXICAL_THRESHOLD
  }

  /**
   * A new reflection may be requested when none is shown, or when the first
   * one shown is strictly more than 24 hours old.
   */
  function CanRegenerate(reflections: seq<Reflection>, now: int): (r: bool)
    ensures r <==> reflections == [] || now - reflections[0].generatedAt.millis > 24 * 60 * 60 * 1000
  {
    reflections == [] || now - reflections[0].generatedAt.millis > REGENERATE_AFTER_MILLIS
  }

  /** The threshold at the sample counts: locked at 0 and 29, unlocked at 30, 31 and 1000. */
  lemma ThresholdSamples()
    ensures !CanReflect(0) && !CanReflect(29)
    ensures CanReflect(30) && CanReflect(31) && CanReflect(1000)
  {
  }

  /** A reflection 23 hours old blocks a new request; one exactly 24 hours old too; one 25 hours old does not. */
  lemma RegenerationSamples(r: Reflection, rest: seq<Reflection>)
    ensures !CanRegenerate([r] + rest, r.generatedAt.millis + 23 * 3600000)
    ensures !CanRegenerate([r] + rest, r.generatedAt.millis + 24 * 3600000)
    ensures CanRegenerate([r] + rest, r.generatedAt.millis + 25 * 3600000)
  {
  }

  /** The shown reflections without the one with `id`, in order. */
  function WithoutId(rs: seq<Reflection>, id: string): (r: seq<Reflection>)
    ensures forall x :: x in r <==> x in rs && x.id != id
    ensures forall x :: multiset(r)[x] == if x.id == id then 0 else multiset(rs)[x]
    ensures IsSubsequence(r, rs)
    ensures (forall x | x in rs :: x.id != id) ==> r == rs
  {
    if rs == [] then []
    else
      var rest := WithoutId(rs[1..], id);
      assert rs == [rs[0]] + rs[1..];
      if rs[0].id != id then [rs[0]] + rest else rest
  }

  /** The shown list after saving `saved`: it goes first, and only a reflection with the same id is dropped. */
  function ShownAfterSave(shown: seq<Reflection>, saved: Reflection): (r: seq<Reflection>)
    ensures |r| >= 1 && r[0] == saved
    ensures forall x :: x in r <==> x == saved || (x in shown && x.id != saved.id)
    ensures forall x :: multiset(r[1..])[x] == if x.id == saved.id then 0 else multiset(shown)[x]
    ensures IsSubsequence(r[1..], shown)
  {
    var r := [saved] + WithoutId(shown, saved.id);
    assert r[1..] == WithoutId(shown, saved.id);
    r
  }

  /** With a fresh id nothing is dropped: the new reflection is simply put in front. */
  lemma FreshIdDropsNothing(shown: seq<Reflection>, saved: Reflection)
    requires forall x | x in shown :: x.id != saved.id
    ensures ShownAfterSave(shown, saved) == [saved] + shown
  {
  }

  /**
   * The screen filters by id where the store replaces by kind: after a new
   * lexical reflection is saved, an older lexical reflection stays on screen
   * although the store no longer holds it. `Upsert(shown, saved)` is the
   * stored record when the store held exactly the shown list, as it does
   * after `LoadReflections` when nothing else has written to it.
   */
  lemma StaleLexicalStaysShown(shown: seq<Reflection>, saved: Reflection, i: nat)
    requires saved.kind == Lexical
    requires i < |shown| && shown[i].kind == Lexical && shown[i].id != saved.id
    ensures shown[i] in ShownAfterSave(shown, saved) && saved in ShownAfterSave(shown, saved)
    ensures shown[i] !in Upsert(shown, saved)
  {
    var u := Upsert(shown, saved);
    forall k | 0 <= k < |u| ensures u[k] != shown[i] {
      if k > 0 {
        assert u[k].kind != Lexical;
      }
    }
  }

  /**
   * Without an API key the generator's message is non-empty, so it is saved
   * as the latest lexical reflection and then blocks a new request for 24 hours.
   */
  lemma MissingKeyBlocksForADay(entries: seq<Entry>, call: CallOutcome, shown: seq<Reflection>,
                                id: string, at: Timestamp, now: int)
    requires now - at.millis <= REGENERATE_AFTER_MILLIS
    ensures var patterns := GenerateLexicalReflection("", entries, call).patterns;
      && patterns == [NO_KEY_MESSAGE]
      && !CanRegenerate(ShownAfterSave(shown, Reflection(id, at, patterns, Lexical)), now)
  {
  }

  /** The state of the reflection screen and the store it writes to. */
  class ReflectionScreen {
    const store: Store
    const entries: seq<Entry>
    var reflections: seq<Reflection>
    var isLoading: bool

    constructor (store: Store, entries: seq<Entry>)
      ensures this.store == store && this.entries == entries
      ensures reflections == [] && !isLoading
    {
      this.store := store;
      this.entries := entries;
      reflections := [];
      isLoading := false;
    }

    /** The effect run when the screen appears: show what the store holds. */
    method LoadReflections()
      modifies this`reflections
      ensures store.GetReflections().Ok? ==> reflections == store.GetReflections().value
      ensures store.GetReflections().Err? ==> reflections == old(reflections)
    {
      var stored := store.GetReflections();
      if stored.Ok? {
        reflections := stored.value;
      }
    }

    /** The part of a request before the generator is awaited: the screen shows it is busy. */
    method BeginReflect()
      modifies this`isLoading
      ensures isLoading
    {
      isLoading := true;
    }

    /**
     * The part of a request after the awaited generator settled: `answer` is
     * the list it resolved with, or `None` when it rejected. A non-empty list
     * is saved as the lexical reflection (`id` stands for the fresh random
     * UUID, `now` for the clock) and put in front of the shown list; an empty
     * list changes nothing; a rejection and an exception from the store are
     * caught. Either way the busy flag is cleared.
     */
    method CompleteReflect(answer: Option<seq<string>>, id: string, now: Timestamp)
      requires forall r | r in reflections :: r.id != id
      modifies this`reflections, this`isLoading, store
      ensures !isLoading
      ensures store.entries == old(store.entries)
      ensures answer.Some? && answer.value != [] && old(store.GetReflections()).Ok? ==>
        var saved := Reflection(id, now, answer.value, Lexical);
        && store.reflections == Holds(Upsert(old(store.GetReflections()).value, saved))
        && reflections == [saved] + old(reflections)
      ensures answer.None? || answer.value == [] || old(store.GetReflections()).Err? ==>
        store.reflections == old(store.reflections) && reflections == old(reflections)
    {
      if answer.Some? && |answer.value| > 0 {
        var saved := store.SaveReflection(id, now, answer.value, Lexical);
        if saved.Ok? {
          FreshIdDropsNothing(reflections, saved.value);
          reflections := ShownAfterSave(reflections, saved.value);
        }
      }
      isLoading := false;
    }

    /**
     * `handleReflect`: mark the screen busy, await the generator (whose client
     * creation and remote call ended with `call`), then save and show a
     * non-empty answer.
     */
    method HandleReflect(apiKey: string, call: CallOutcome, id: string, now: Timestamp)
      requires forall r | r in reflections :: r.id != id
      modifies this`reflections, this`isLoading, store
      ensures !isLoading
      ensures store.entries == old(store.entries)
      ensures var g := GenerateLexicalReflection(apiKey, entries, call);
        g.Resolved? && g.patterns != [] && old(store.GetReflections()).Ok? ==>
        var saved := Reflection(id, now, g.patterns, Lexical);
        && store.reflections == Holds(Upsert(old(store.GetReflections()).value, saved))
        && reflections == [saved] + old(reflections)
      ensures var g := GenerateLexicalReflection(apiKey, entries, call);
        g.Rejected? || g.patterns == [] || old(store.GetReflections()).Err? ==>
        store.reflections == old(store.reflections) && reflections == old(reflections)
    {
      BeginReflect();
      var generation := GenerateLexicalReflection(apiKey, entries, call);
      assert isLoading;
      var answer := if generation.Resolved? then Some(generation.patterns) else None;
      CompleteReflect(answer, id, now);
    }
  }
}
