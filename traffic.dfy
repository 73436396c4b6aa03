/**
 * The rolling window behind the network-traffic line chart.
 *
 * The chart keeps three parallel arrays: the time labels, the download
 * series and the upload series. Every timer tick appends one point to the
 * tail of all three and, once the labels are longer than the window, shifts
 * the head off all three. Taken together the arrays are a bounded FIFO of
 * samples.
 */
module Traffic {

  /** Largest number of points the chart keeps. */
  const WINDOW_SIZE: nat := 10

  /** One chart point: the time label and the two series values at that index. */
  datatype Sample = Sample(time: string, download: real, upload: real)

  /**
   * The window after one sample arrives: append at the tail, then drop the
   * head when the window has grown past WINDOW_SIZE.
   */
  function Roll(w: seq<Sample>, x: Sample): (r: seq<Sample>)
    // the window grows by one until it is full, then keeps its length
    ensures |r| == if |w| < WINDOW_SIZE then |w| + 1 else |w|
    ensures |w| <= WINDOW_SIZE ==> |r| <= WINDOW_SIZE
    // the new sample is the newest point
    ensures r[|r| - 1] == x
    // below capacity nothing is evicted and the old points stay where they were
    ensures |w| < WINDOW_SIZE ==> r[..|w|] == w
    // at capacity exactly the oldest point goes, the others keep their order
    ensures |w| >= WINDOW_SIZE ==> r[..|w| - 1] == w[1..]
  {
    var grown := w + [x];
    if |grown| > WINDOW_SIZE then grown[1..] else grown
  }

  /** The last WINDOW_SIZE elements of s (all of s when it is shorter). */
  function Latest(s: seq<Sample>): (r: seq<Sample>)
  {
    if |s| <= WINDOW_SIZE then s else s[|s| - WINDOW_SIZE..]
  }

  /** The window after the samples xs arrive one tick at a time, oldest first. */
  function ReplayUpdates(w: seq<Sample>, xs: seq<Sample>): (r: seq<Sample>)
  {
    if xs == [] then w else Roll(ReplayUpdates(w, xs[..|xs| - 1]), xs[|xs| - 1])
  }

  /** One tick on the latest samples of s gives the latest samples of s + [x]. */
  lemma RollOfLatest(s: seq<Sample>, x: Sample)
    ensures Roll(Latest(s), x) == Latest(s + [x])
  {
    if |s| >= WINDOW_SIZE {
      var l := s[|s| - WINDOW_SIZE..];
      assert (l + [x])[1..] == (s + [x])[|s| + 1 - WINDOW_SIZE..];
    }
  }

  /**
   * However many ticks happen, a window that starts within capacity holds
   * exactly the most recent WINDOW_SIZE samples, in arrival order.
   */
  lemma {:induction false} ReplayKeepsLatest(w: seq<Sample>, xs: seq<Sample>)
    requires |w| <= WINDOW_SIZE
    ensures ReplayUpdates(w, xs) == Latest(w + xs)
  {
    if xs == [] {
      assert w + xs == w;
    } else {
      var init, x := xs[..|xs| - 1], xs[|xs| - 1];
      calc {
        ReplayUpdates(w, xs);
        Roll(ReplayUpdates(w, init), x);
        { ReplayKeepsLatest(w, init); }
        Roll(Latest(w + init), x);
        { RollOfLatest(w + init, x); }
        Latest((w + init) + [x]);
        { assert (w + init) + [x] == w + xs; }
        Latest(w + xs);
      }
    }
  }

  /**
   * Starting from the empty chart, the eleventh tick evicts the first sample
   * and leaves the last ten in their original order.
   */
  lemma EleventhUpdateEvictsFirst(xs: seq<Sample>)
    requires |xs| == WINDOW_SIZE + 1
    ensures ReplayUpdates([], xs) == xs[1..]
  {
    ReplayKeepsLatest([], xs);
    assert [] + xs == xs;
  }

  /** The chart's data: three parallel arrays updated in place. */
  class TrafficChart {
    var labels: seq<string>
    var download: seq<real>
    var upload: seq<real>

    /** The three arrays move in lockstep and never exceed the window. */
    ghost predicate Valid()
      reads this
    {
      |labels| == |download| == |upload| <= WINDOW_SIZE
    }

    /** The arrays read as one sequence of samples, index by index. */
    ghost function Samples(): seq<Sample>
      reads this
      requires Valid()
    {
      var l, d, u := labels, download, upload;
      seq(|l|, i requires 0 <= i < |l| => Sample(l[i], d[i], u[i]))
    }

    /** The chart starts with no labels and two empty series. */
    constructor ()
      ensures Valid()
      ensures labels == [] && download == [] && upload == []
    {
      labels, download, upload := [], [], [];
    }

    /**
     * One timer tick: append the time label and the two readings, then, if
     * the labels now exceed the window, shift the head off all three arrays.
     * The clock reading and the two random values are parameters.
     */
    method Update(time: string, down: real, up: real)
      modifies this
      ensures |old(labels)| < WINDOW_SIZE ==>
        labels == old(labels) + [time] &&
        download == old(download) + [down] &&
        upload == old(upload) + [up]
      ensures |old(labels)| >= WINDOW_SIZE ==>
        labels == old(labels)[1..] + [time] &&
        download == (old(download) + [down])[1..] &&
        upload == (old(upload) + [up])[1..]
      ensures old(Valid()) ==>
        Valid() && Samples() == Roll(old(Samples()), Sample(time, down, up))
    {
      labels := labels + [time];
      download := download + [down];
      upload := upload + [up];

      if |labels| > WINDOW_SIZE {
        labels := labels[1..];
        download := download[1..];
        upload := upload[1..];
      }

      if old(Valid()) {
        var before, r := old(Samples()), Roll(old(Samples()), Sample(time, down, up));
        assert |Samples()| == |r|;
        forall i | 0 <= i < |r|
          ensures Samples()[i] == r[i]
        {
          if |before| < WINDOW_SIZE {
            if i < |before| {
              assert r[i] == before[i];
            }
          } else if i < |before| - 1 {
            assert r[i] == before[i + 1];
          }
        }
      }
    }
  }
}
