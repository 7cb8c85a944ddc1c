/**
 Fixed windows, as a history of moments: each detection either falls into the window that is open or opens a new one.
 The window in force is the end of the history from the moment that opened it.
 */
module FixedWindows {
  import opened Options
  import opened Trackers

  /** Which moment opened the window, when it started, and whether a tracker was created for it. */
  datatype Opening = Opening(index: nat, start: Time, created: bool)

  /** The window in force after these moments; none while there was no memory to open the first. */
  function OpeningOf(ms: seq<Moment>, window: int): (o: Option<Opening>)
    ensures o.Some? ==> o.value.index < |ms|
  {
    if ms == [] then None
    else
      var prev, at := OpeningOf(ms[..|ms| - 1], window), ms[|ms| - 1];
      if prev.None? then
        if !at.memory then None
        else if at.now - at.created > window then Some(Opening(|ms| - 1, at.now, false))
        else Some(Opening(|ms| - 1, at.created, true))
      else if at.now - prev.value.start > window then Some(Opening(|ms| - 1, at.now, false))
      else prev
  }

  lemma OpeningSnoc(ms: seq<Moment>, at: Moment, window: int)
    ensures var prev, o := OpeningOf(ms, window), OpeningOf(ms + [at], window);
            && (o.None? <==> prev.None? && !at.memory)
            && (o.Some? ==>
                  if prev.Some? && at.now - prev.value.start <= window then o == prev
                  else
                    && o.value.index == |ms|
                    && o.value.created == (prev.None? && at.now - at.created <= window)
                    && o.value.start == if o.value.created then at.created else at.now)
  {
    assert (ms + [at])[..|ms|] == ms;
  }

  /** The elements of a history from its opening on, one more. */
  lemma SuffixSnoc<T>(f: seq<T>, x: T, i: nat)
    requires i <= |f|
    ensures (f + [x])[i..] == f[i..] + [x]
    ensures (f + [x])[|f|..] == [x]
    ensures (f + [x])[i..|f|] == f[i..]
  {
  }
}
