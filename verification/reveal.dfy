/**
 * The scroll-triggered reveal groups (initStatCardsAnimation and
 * initRequirementsChecklistAnimation): an observer on a container that, on
 * an intersecting entry, hands one timer per item to setTimeout with a
 * staggered delay and stops observing the container; and the stat card's
 * timer callback, which reveals the card and runs its number animation.
 */
module Reveal {
  import StatNumber

  /** Stagger between stat cards, in milliseconds. */
  const StatCardStagger: nat := 200

  /** Stagger between checklist items, in milliseconds. */
  const ChecklistStagger: nat := 250

  /** A setTimeout call: reveal item `item` after `delay` milliseconds. */
  datatype Timer = Timer(item: nat, delay: nat)

  /** The timers one pass over a group of `count` items schedules. */
  function Schedule(count: nat, stagger: nat): (r: seq<Timer>)
    ensures |r| == count
    ensures forall i :: 0 <= i < count ==> r[i] == Timer(i, i * stagger)
  {
    if count == 0 then [] else Schedule(count - 1, stagger) + [Timer(count - 1, (count - 1) * stagger)]
  }

  /** The forEach over the items: item i gets delay i * stagger. */
  method ScheduleItems(count: nat, stagger: nat) returns (timers: seq<Timer>)
    ensures timers == Schedule(count, stagger)
  {
    timers := [];
    var index := 0;
    while index < count
      invariant index <= count
      invariant |timers| == index
      invariant forall i :: 0 <= i < index ==> timers[i] == Timer(i, i * stagger)
    {
      timers := timers + [Timer(index, index * stagger)];
      index := index + 1;
    }
  }

  /** With a positive stagger the delays start at 0 and strictly increase, so items reveal in order. */
  lemma DelaysIncrease(count: nat, stagger: nat, i: nat, j: nat)
    requires stagger > 0 && i < j < count
    ensures Schedule(count, stagger)[0].delay == 0
    ensures Schedule(count, stagger)[i].delay < Schedule(count, stagger)[j].delay
    ensures Schedule(count, stagger)[j].delay - Schedule(count, stagger)[i].delay == (j - i) * stagger
  {
    var s := Schedule(count, stagger);
    assert s[j].delay - s[i].delay == (j - i) * stagger by {
      assert j * stagger - i * stagger == (j - i) * stagger;
    }
    assert (j - i) * stagger >= stagger by {
      assert j - i >= 1;
    }
  }

  /** A group of four stat cards is revealed at 0, 200, 400 and 600 ms. */
  lemma FourStatCards()
    ensures Schedule(4, StatCardStagger) == [Timer(0, 0), Timer(1, 200), Timer(2, 400), Timer(3, 600)]
  {
    var s := Schedule(4, StatCardStagger);
    assert s[0] == Timer(0, 0) && s[1] == Timer(1, 200) && s[2] == Timer(2, 400) && s[3] == Timer(3, 600);
  }

  /** Three checklist items are revealed at 0, 250 and 500 ms. */
  lemma ThreeChecklistItems()
    ensures Schedule(3, ChecklistStagger) == [Timer(0, 0), Timer(1, 250), Timer(2, 500)]
  {
    var s := Schedule(3, ChecklistStagger);
    assert s[0] == Timer(0, 0) && s[1] == Timer(1, 250) && s[2] == Timer(2, 500);
  }

  /** How many entries of a callback's batch are intersecting. */
  function Intersecting(entries: seq<bool>): (n: nat)
    ensures n <= |entries|
    ensures n == 0 <==> true !in entries
  {
    if |entries| == 0 then 0
    else Intersecting(entries[..|entries| - 1]) + (if entries[|entries| - 1] then 1 else 0)
  }

  /** Taking one more entry of a batch adds it to the count and to the membership test. */
  lemma BatchGrows(entries: seq<bool>, k: nat)
    requires k < |entries|
    ensures Intersecting(entries[..k + 1]) == Intersecting(entries[..k]) + (if entries[k] then 1 else 0)
    ensures (true in entries[..k + 1]) <==> (true in entries[..k] || entries[k])
  {
    assert entries[..k + 1] == entries[..k] + [entries[k]];
  }

  /** `n` passes of a schedule, one after another. */
  function Repeat(pass: seq<Timer>, n: nat): seq<Timer> {
    if n == 0 then [] else Repeat(pass, n - 1) + pass
  }

  /** Every timer of repeated passes over `count` items names one of them. */
  lemma {:induction false} RepeatNamesItems(count: nat, stagger: nat, n: nat)
    ensures forall t :: t in Repeat(Schedule(count, stagger), n) ==> t.item < count
  {
    if n > 0 {
      RepeatNamesItems(count, stagger, n - 1);
    }
  }

  /** Whether every batch after the first intersecting entry is empty: the browser delivers nothing for a target no longer observed. */
  predicate Delivered(observing: bool, batches: seq<seq<bool>>) {
    |batches| == 0
    || ((observing || batches[0] == []) && Delivered(observing && true !in batches[0], batches[1..]))
  }

  /** The passes scheduled over a sequence of callbacks, as the code is written: one per intersecting entry. */
  function PassesAsWritten(batches: seq<seq<bool>>): nat {
    if |batches| == 0 then 0 else Intersecting(batches[0]) + PassesAsWritten(batches[1..])
  }

  /** The passes scheduled when only the first intersecting entry while observing counts. */
  function PassesOnce(observing: bool, batches: seq<seq<bool>>): nat {
    if |batches| == 0 then 0
    else (if observing && true in batches[0] then 1 else 0)
         + PassesOnce(observing && true !in batches[0], batches[1..])
  }

  /**
   * Across callbacks the group fires once at most: after the first batch
   * with an intersecting entry nothing more is delivered, so as written the
   * only passes are those of that one batch.
   */
  lemma {:induction false} AsWrittenOnlyFirstBatch(observing: bool, batches: seq<seq<bool>>)
    requires Delivered(observing, batches)
    requires forall k :: 0 <= k < |batches| ==> Intersecting(batches[k]) <= 1
    ensures PassesAsWritten(batches) <= (if observing then 1 else 0)
  {
    if |batches| > 0 {
      var rest := batches[1..];
      assert forall k :: 0 <= k < |rest| ==> Intersecting(rest[k]) <= 1 by {
        forall k | 0 <= k < |rest| ensures Intersecting(rest[k]) <= 1 {
          assert rest[k] == batches[k + 1];
        }
      }
      AsWrittenOnlyFirstBatch(observing && true !in batches[0], rest);
      assert Intersecting(batches[0]) <= 1;
      if !observing {
        assert batches[0] == [];
      }
    }
  }

  /** As written, one callback whose batch holds two intersecting entries for the container schedules the group twice. */
  lemma AsWrittenDoubleFire()
    ensures Delivered(true, [[true, true]])
    ensures PassesAsWritten([[true, true]]) == 2
  {
    assert [[true, true]][1..] == [];
    assert [true, true][..1] == [true];
    assert [true][..0] == [];
  }

  /** Counting only the first intersecting entry, the group fires at most once whatever the browser delivers. */
  lemma {:induction false} OnceFiresAtMostOnce(observing: bool, batches: seq<seq<bool>>)
    ensures PassesOnce(observing, batches) <= (if observing then 1 else 0)
  {
    if |batches| > 0 {
      OnceFiresAtMostOnce(observing && true !in batches[0], batches[1..]);
    }
  }

  /** An observed group: the container's observation flag and the timers handed to setTimeout so far. */
  class RevealGroup {
    const count: nat
    const stagger: nat
    var observing: bool
    var timers: seq<Timer>
    var revealed: set<nat>

    /** Every timer and every revealed item is one of the group's items. */
    ghost predicate Valid()
      reads this
    {
      (forall t :: t in timers ==> t.item < count) && (forall i :: i in revealed ==> i < count)
    }

    /** With no items or no container the initialiser returns before observing anything. */
    constructor (count: nat, stagger: nat, containerPresent: bool)
      ensures this.count == count && this.stagger == stagger
      ensures observing == (count > 0 && containerPresent)
      ensures timers == [] && revealed == {}
      ensures Valid()
    {
      this.count := count;
      this.stagger := stagger;
      observing := count > 0 && containerPresent;
      timers := [];
      revealed := {};
    }

    /**
     * The observer callback, as written: every intersecting entry of the
     * batch schedules a pass over the items and unobserves the container.
     */
    method Notify(entries: seq<bool>)
      requires Valid()
      requires observing || entries == []
      modifies this
      ensures Valid()
      ensures observing == (old(observing) && true !in entries)
      ensures timers == old(timers) + Repeat(Schedule(count, stagger), Intersecting(entries))
      ensures revealed == old(revealed)
    {
      ghost var pass := Schedule(count, stagger);
      ghost var before := timers;
      var k := 0;
      while k < |entries|
        invariant k <= |entries|
        invariant observing == (old(observing) && true !in entries[..k])
        invariant timers == before + Repeat(pass, Intersecting(entries[..k]))
        invariant revealed == old(revealed)
      {
        BatchGrows(entries, k);
        if entries[k] {
          var timersOfPass := ScheduleItems(count, stagger);
          timers := timers + timersOfPass;
          observing := false;
        }
        k := k + 1;
      }
      assert entries[..k] == entries;
      RepeatNamesItems(count, stagger, Intersecting(entries));
    }

    /**
     * The callback with fire-once made explicit: entries after the container
     * was unobserved are ignored, so at most one pass is ever scheduled.
     */
    method NotifyOnce(entries: seq<bool>)
      requires Valid()
      modifies this
      ensures Valid()
      ensures observing == (old(observing) && true !in entries)
      ensures timers == old(timers) + (if old(observing) && true in entries then Schedule(count, stagger) else [])
      ensures revealed == old(revealed)
    {
      var k := 0;
      while k < |entries|
        invariant k <= |entries|
        invariant observing == (old(observing) && true !in entries[..k])
        invariant timers == old(timers) + (if old(observing) && true in entries[..k] then Schedule(count, stagger) else [])
        invariant revealed == old(revealed)
        invariant Valid()
      {
        assert entries[..k + 1] == entries[..k] + [entries[k]];
        if entries[k] && observing {
          var pass := ScheduleItems(count, stagger);
          timers := timers + pass;
          observing := false;
        }
        k := k + 1;
      }
      assert entries[..k] == entries;
    }

    /** A timer expires: its item gets the "animate" class. */
    method Fire(t: Timer)
      requires Valid() && t in timers
      modifies this`revealed
      ensures Valid()
      ensures revealed == old(revealed) + {t.item}
    {
      revealed := revealed + {t.item};
    }
  }

  /** One stat card: its "animate" flag and its number label, if it has one. */
  class StatCard {
    const hasNumber: bool
    var animated: bool
    var text: string

    constructor (hasNumber: bool, text: string)
      ensures this.hasNumber == hasNumber && !animated && this.text == text
    {
      this.hasNumber := hasNumber;
      animated := false;
      this.text := text;
    }

    /**
     * The stat card's timer callback: add "animate", then run animateNumber
     * on the label; the text is what the label holds once its count-up has
     * finished.
     */
    method Reveal()
      modifies this
      ensures animated
      ensures text == (if hasNumber then StatNumber.SettledText(old(text)) else old(text))
    {
      animated := true;
      if hasNumber {
        text := StatNumber.SettledText(text);
      }
    }
  }
}
