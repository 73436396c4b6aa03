/**
 * The simulated log panel.
 *
 * Every timer tick puts a new log paragraph at the front of the log
 * container and, when the container then holds more than MAX_LOG_ENTRIES
 * children, removes its last child. The container is a bounded queue whose
 * newest entry comes first.
 */
module Logs {

  /** Largest number of log entries the container keeps. */
  const MAX_LOG_ENTRIES: nat := 5

  /**
   * The container after one tick: prepend the new entry, then drop the last
   * (oldest) one when there are more than MAX_LOG_ENTRIES.
   */
  function AfterTick(w: seq<string>, entry: string): (r: seq<string>)
    // the list grows by one until it is full, then keeps its length
    ensures |r| == if |w| < MAX_LOG_ENTRIES then |w| + 1 else |w|
    ensures |w| <= MAX_LOG_ENTRIES ==> |r| <= MAX_LOG_ENTRIES
    // the new entry is shown first
    ensures r[0] == entry
    // below capacity every older entry stays, in order, behind the new one
    ensures |w| < MAX_LOG_ENTRIES ==> r[1..] == w
    // at capacity exactly the last (oldest) entry goes
    ensures |w| >= MAX_LOG_ENTRIES ==> r[1..] == w[..|w| - 1]
  {
    var grown := [entry] + w;
    if |grown| > MAX_LOG_ENTRIES then grown[..|grown| - 1] else grown
  }

  /** The first MAX_LOG_ENTRIES elements of s (all of s when it is shorter). */
  function Newest(s: seq<string>): (r: seq<string>)
  {
    if |s| <= MAX_LOG_ENTRIES then s else s[..MAX_LOG_ENTRIES]
  }

  /** The entries es, written oldest first, listed newest first. */
  function NewestFirst(es: seq<string>): (r: seq<string>)
  {
    if es == [] then [] else [es[|es| - 1]] + NewestFirst(es[..|es| - 1])
  }

  /** The container after the entries es are logged one tick at a time, oldest first. */
  function ReplayTicks(w: seq<string>, es: seq<string>): (r: seq<string>)
  {
    if es == [] then w else AfterTick(ReplayTicks(w, es[..|es| - 1]), es[|es| - 1])
  }

  /** One tick on the newest entries of s gives the newest entries of [e] + s. */
  lemma AfterTickOfNewest(s: seq<string>, e: string)
    ensures AfterTick(Newest(s), e) == Newest([e] + s)
  {
    if |s| > MAX_LOG_ENTRIES {
      var n := s[..MAX_LOG_ENTRIES];
      assert ([e] + n)[..MAX_LOG_ENTRIES] == ([e] + s)[..MAX_LOG_ENTRIES];
    }
  }

  /**
   * However many ticks happen, a container that starts within capacity shows
   * exactly the MAX_LOG_ENTRIES most recent entries, newest first.
   */
  lemma {:induction false} ReplayKeepsNewest(w: seq<string>, es: seq<string>)
    requires |w| <= MAX_LOG_ENTRIES
    ensures ReplayTicks(w, es) == Newest(NewestFirst(es) + w)
  {
    if es == [] {
      assert NewestFirst(es) + w == w;
    } else {
      var init, e := es[..|es| - 1], es[|es| - 1];
      ReplayKeepsNewest(w, init);
      AfterTickOfNewest(NewestFirst(init) + w, e);
      assert NewestFirst(es) + w == [e] + (NewestFirst(init) + w);
    }
  }

  /**
   * Starting from an empty container, the sixth tick removes the first entry
   * ever logged and shows the other five, newest first.
   */
  lemma SixthTickDropsFirst(es: seq<string>)
    requires |es| == MAX_LOG_ENTRIES + 1
    ensures ReplayTicks([], es) == NewestFirst(es[1..])
  {
    ReplayKeepsNewest([], es);
    assert NewestFirst(es) + [] == NewestFirst(es);
    var rest := NewestFirst(es[1..]);
    assert |rest| == MAX_LOG_ENTRIES by { NewestFirstLength(es[1..]); }
    assert NewestFirst(es) == rest + [es[0]] by { NewestFirstSnoc(es); }
  }

  /** Reversing keeps the length. */
  lemma {:induction false} NewestFirstLength(es: seq<string>)
    ensures |NewestFirst(es)| == |es|
  {
    if es != [] {
      NewestFirstLength(es[..|es| - 1]);
    }
  }

  /** The oldest entry is listed last. */
  lemma {:induction false} NewestFirstSnoc(es: seq<string>)
    requires es != []
    ensures NewestFirst(es) == NewestFirst(es[1..]) + [es[0]]
  {
    if |es| > 1 {
      var init := es[..|es| - 1];
      NewestFirstSnoc(init);
      assert init[1..] == es[1..][..|es| - 2];
      assert es[1..][|es| - 2] == es[|es| - 1];
    }
  }

  /** The log container's children, first child first. */
  class LogContainer {
    var entries: seq<string>

    /** The container never shows more than MAX_LOG_ENTRIES entries. */
    ghost predicate Valid()
      reads this
    {
      |entries| <= MAX_LOG_ENTRIES
    }

    /** The container starts empty. */
    constructor ()
      ensures Valid() && entries == []
    {
      entries := [];
    }

    /**
     * One timer tick: prepend the new entry and, when there are now more
     * than MAX_LOG_ENTRIES children, remove the last child. The entry's text
     * (clock reading and random wording) is a parameter.
     */
    method AddLog(entry: string)
      modifies this
      ensures entries == AfterTick(old(entries), entry)
      ensures old(Valid()) ==> Valid()
    {
      entries := [entry] + entries;
      if |entries| > MAX_LOG_ENTRIES {
        entries := entries[..|entries| - 1];
      }
    }
  }
}
