/** Feeding a stream of complete messages piece by piece: every way of cutting it reports the same. */
module ObserverCuts {
  import opened Net
  import opened Text
  import opened Observer
  import opened ObserverProofs

  predicate Observable(m: seq<byte>, response: bool) {
    Complete(m, response) && HeadFits(m) && !TlsLike(m)
  }

  function EventOf(m: seq<byte>, response: bool): Event
    requires Complete(m, response)
  {
    Frame(m, response, false).value.value.event
  }

  predicate AllObservable(ms: seq<seq<byte>>, response: bool) {
    forall i :: 0 <= i < |ms| ==> Observable(ms[i], response)
  }

  function EventsOf(ms: seq<seq<byte>>, response: bool): seq<Event>
    requires AllObservable(ms, response)
  {
    if ms == [] then [] else [EventOf(ms[0], response)] + EventsOf(ms[1..], response)
  }

  /** Messages not yet complete after n bytes, and how many bytes of the next one are there. */
  function Left(ms: seq<seq<byte>>, n: nat): seq<seq<byte>> {
    if ms != [] && n >= |ms[0]| then Left(ms[1..], n - |ms[0]|) else ms
  }

  function Partial(ms: seq<seq<byte>>, n: nat): nat {
    if ms != [] && n >= |ms[0]| then Partial(ms[1..], n - |ms[0]|) else n
  }

  /** No feed overflows the inspection limit: a condition on lengths alone. */
  predicate SafeCut(ms: seq<seq<byte>>, partial: nat, cuts: seq<seq<byte>>)
    decreases |cuts|
  {
    cuts == [] ||
    (var n := partial + |cuts[0]|;
     n <= LIMIT + HEADER_LIMIT && SafeCut(Left(ms, n), Partial(ms, n), cuts[1..]))
  }

  // ---------- one feed ----------

  lemma ShortestMessage(m: seq<byte>, response: bool)
    requires Complete(m, response)
    ensures |m| >= 3
  {
    var d := FindDelimiter(m).value;
    assert m[..0] == [];
    if d.end == 0 {
      EmptyHeadFails(response);
    }
  }

  lemma EmptyHeadFails(response: bool)
    ensures ParseHead([], response).Err?
  {
  }

  lemma WholeMessageFirst(m: seq<byte>, response: bool, more: seq<byte>)
    requires Complete(m, response)
    ensures Frame(m + more, response, false) == Ok(Some(Found(|m|, EventOf(m, response))))
  {
    CompleteHasDelimiter(m, response);
    FrameStable(m, response, more);
  }

  lemma DrainStep(s: State, m: seq<byte>, q: seq<byte>, response: bool)
    requires Complete(m, response) && s.pending == m + q
    ensures Drain(s, response, false) ==
      Drain(s.(pending := q, events := s.events + [EventOf(m, response)]), response, false)
  {
    hide Frame, Complete;
    WholeMessageFirst(m, response, q);
    assert s.pending[|m|..] == q;
    if q == [] {
      NothingQuiet(s.(pending := q, events := s.events + [EventOf(m, response)]), response);
    }
  }

  /** From s the observer has moved on to s1, with messages `left` of `ms` still to come. */
  ghost predicate Advanced(s: State, ms: seq<seq<byte>>, s1: State, left: seq<seq<byte>>, tail: seq<byte>,
                           rest: seq<byte>, response: bool)
    requires AllObservable(ms, response)
  {
    && s1.disabled == s.disabled && AllObservable(left, response)
    && s1.pending + rest == Flat(left) + tail
    && |s1.pending| == Partial(ms, |s.pending|) && (left != [] ==> |s1.pending| < |left[0]|)
    && s1.events + EventsOf(left, response) == s.events + EventsOf(ms, response)
  }

  lemma FrontOf(p: seq<byte>, rest: seq<byte>, m: seq<byte>, after: seq<byte>)
    requires p + rest == m + after
    ensures |p| <= |m| ==> p == m[..|p|]
    ensures |p| >= |m| ==> p == m + p[|m|..] && p[|m|..] + rest == after
  {
    if |p| <= |m| {
      assert p == (p + rest)[..|p|];
      assert m[..|p|] == (m + after)[..|p|];
    }
    if |p| >= |m| {
      assert m == (m + after)[..|m|];
      assert p[..|m|] == (p + rest)[..|m|];
      assert after == (m + after)[|m|..];
      assert p[|m|..] + rest == (p + rest)[|m|..];
    }
  }

  lemma WaitingStays(s: State, ms: seq<seq<byte>>, tail: seq<byte>, rest: seq<byte>, response: bool)
    requires AllObservable(ms, response) && Quiet(tail, response)
    requires s.pending + rest == Flat(ms) + tail && (ms != [] ==> |s.pending| < |ms[0]|)
    ensures Drain(s, response, false) == s
  {
    hide Frame, Complete;
    if ms == [] {
      assert [] + tail == tail;
      FrontOf(s.pending, rest, tail, []);
      assert s.pending == tail[..|s.pending|];
    } else {
      assert Flat(ms) + tail == ms[0] + (Flat(ms[1..]) + tail);
      FrontOf(s.pending, rest, ms[0], Flat(ms[1..]) + tail);
      PrefixOfComplete(ms[0], response, |s.pending|);
    }
  }

  lemma AdvancedByOne(s: State, ms: seq<seq<byte>>, s2: State, left: seq<seq<byte>>, tail: seq<byte>, rest: seq<byte>,
                      response: bool)
    requires ms != [] && AllObservable(ms, response) && |s.pending| >= |ms[0]|
    requires Advanced(s.(pending := s.pending[|ms[0]|..], events := s.events + [EventOf(ms[0], response)]), ms[1..], s2,
      left, tail, rest, response)
    ensures Advanced(s, ms, s2, left, tail, rest, response)
  {
    hide EventOf, Complete;
    assert (s.events + [EventOf(ms[0], response)]) + EventsOf(ms[1..], response) == s.events + EventsOf(ms, response);
  }

  /** Draining takes exactly the messages that are whole. */
  lemma {:induction false} DrainTakesWhole(s: State, ms: seq<seq<byte>>, tail: seq<byte>, rest: seq<byte>,
                                           response: bool)
    requires AllObservable(ms, response) && Quiet(tail, response)
    requires s.pending + rest == Flat(ms) + tail
    ensures Advanced(s, ms, Drain(s, response, false), Left(ms, |s.pending|), tail, rest, response)
    decreases |ms|
  {
    hide Drain, EventOf, Complete, Quiet;
    if ms == [] || |s.pending| < |ms[0]| {
      WaitingStays(s, ms, tail, rest, response);
    } else {
      hide Advanced, EventsOf;
      var q := s.pending[|ms[0]|..];
      assert Flat(ms) + tail == ms[0] + (Flat(ms[1..]) + tail);
      FrontOf(s.pending, rest, ms[0], Flat(ms[1..]) + tail);
      var s1 := s.(pending := q, events := s.events + [EventOf(ms[0], response)]);
      DrainStep(s, ms[0], q, response);
      DrainTakesWhole(s1, ms[1..], tail, rest, response);
      AdvancedByOne(s, ms, Drain(s, response, false), Left(ms, |s.pending|), tail, rest, response);
    }
  }

  lemma NothingQuiet(s: State, response: bool)
    requires s.pending == []
    ensures Drain(s, response, false) == s
  {
    assert Find(s.pending, CRLF2).None? && Find(s.pending, LF2).None?;
  }

  lemma NoTlsAhead(ms: seq<seq<byte>>, tail: seq<byte>, p: seq<byte>, rest: seq<byte>, response: bool)
    requires AllObservable(ms, response) && !TlsLike(tail) && p + rest == Flat(ms) + tail
    ensures !TlsLike(p)
  {
    if |p| >= 3 {
      assert p[0] == (p + rest)[0] && p[1] == (p + rest)[1] && p[2] == (p + rest)[2];
      if ms != [] {
        ShortestMessage(ms[0], response);
      }
    }
  }

  // ---------- all feeds ----------

  lemma {:induction false} DisabledForGood(s: State, cuts: seq<seq<byte>>, response: bool)
    requires s.disabled
    ensures FeedAll(s, cuts, response) == s
    decreases |cuts|
  {
    if cuts != [] {
      DisabledForGood(s, cuts[1..], response);
    }
  }

  lemma {:induction false} FeedsTakeWhole(s: State, cuts: seq<seq<byte>>, ms: seq<seq<byte>>, tail: seq<byte>,
                                          response: bool)
    requires AllObservable(ms, response) && Quiet(tail, response) && !TlsLike(tail) && !s.disabled
    requires s.pending + Flat(cuts) == Flat(ms) + tail && (ms != [] ==> |s.pending| < |ms[0]|)
    ensures if SafeCut(ms, |s.pending|, cuts)
      then FeedAll(s, cuts, response) == State(tail, false, s.events + EventsOf(ms, response))
      else FeedAll(s, cuts, response).disabled
    decreases |cuts|
  {
    hide Frame, Complete, TlsLike, Quiet;
    if cuts == [] {
      assert s.pending == s.pending + [];
      assert s.events + [] == s.events;
      assert [] + tail == tail;
    } else {
      var fed := s.(pending := s.pending + cuts[0]);
      var rest := Flat(cuts[1..]);
      assert fed.pending + rest == s.pending + Flat(cuts);
      var s1 := Feed(s, cuts[0], response, false);
      if |s.pending| + |cuts[0]| > LIMIT + HEADER_LIMIT {
        DisabledForGood(s1, cuts[1..], response);
      } else {
        NoTlsAhead(ms, tail, fed.pending, rest, response);
        DrainTakesWhole(fed, ms, tail, rest, response);
        FeedsTakeWhole(s1, cuts[1..], Left(ms, |fed.pending|), tail, response);
      }
    }
  }

  /**
   Chunking independence. However a stream of observable messages and a quiet rest is cut, the
   observer reports exactly the messages, in order, and keeps the rest; it gives up if and only
   if some feed overflows the inspection limit.
   */
  lemma CutIndependence(cuts: seq<seq<byte>>, ms: seq<seq<byte>>, tail: seq<byte>, response: bool)
    requires AllObservable(ms, response) && Quiet(tail, response) && !TlsLike(tail)
    requires Flat(cuts) == Flat(ms) + tail
    ensures if SafeCut(ms, 0, cuts)
      then FeedAll(State([], false, []), cuts, response) == State(tail, false, EventsOf(ms, response))
      else FeedAll(State([], false, []), cuts, response).disabled
  {
    var s := State([], false, []);
    assert s.pending + Flat(cuts) == Flat(cuts);
    forall i | 0 <= i < |ms| ensures |ms[i]| > 0 {
      ShortestMessage(ms[i], response);
    }
    FeedsTakeWhole(s, cuts, ms, tail, response);
    assert s.events + EventsOf(ms, response) == EventsOf(ms, response);
  }

  // ---------- what a quiet rest can be, and the end of the stream ----------

  /** An unfinished observable message is a quiet rest. */
  lemma UnfinishedIsQuiet(m: seq<byte>, n: nat, response: bool)
    requires Observable(m, response) && n < |m|
    ensures Quiet(m[..n], response) && !TlsLike(m[..n])
  {
    forall k | 0 <= k <= n ensures Frame(m[..n][..k], response, false) == Ok(None) {
      assert m[..n][..k] == m[..k];
      PrefixOfComplete(m, response, k);
    }
  }

  /** A response whose body runs to the end of the stream. */
  predicate CloseDelimited(m: seq<byte>) {
    var d := FindDelimiter(m);
    && d.Some? && d.value.end <= HEADER_LIMIT && HeadFits(m)
    && ParseHead(m[..d.value.end], true).Ok? && ParseHead(m[..d.value.end], true).value.framing.UntilClose?
  }

  lemma CloseDelimitedIsQuiet(m: seq<byte>)
    requires CloseDelimited(m)
    ensures Quiet(m, true)
  {
    hide ParseHead, FindDelimiter;
    var d := FindDelimiter(m).value;
    forall n | 0 <= n <= |m| ensures Frame(m[..n], true, false) == Ok(None) {
      var p := m[..n];
      assert p + m[n..] == m;
      if FindDelimiter(p).Some? {
        DelimiterStable(p, m[n..]);
        assert p[..d.end] == m[..d.end];
      } else {
        NoDelimiterIsShort(m, n);
      }
    }
  }

  /** At the end of the stream a close-delimited response is reported with everything after its head. */
  lemma CloseDelimitedAtEof(m: seq<byte>, events: seq<Event>)
    requires CloseDelimited(m) && !TlsLike(m) && |m| <= LIMIT + HEADER_LIMIT
    ensures var d := FindDelimiter(m).value;
      Feed(State(m, false, events), [], true, true) ==
      State([], false, events + [Message(ParseHead(m[..d.end], true).value, m[d.end + d.size..])])
  {
    hide ParseHead, FindDelimiter, TlsLike;
    assert m + [] == m;
    assert m[|m|..] == [];
  }
}
