/** Streams at the observer's limits: malformed ones, relay reads, and heads that only just overrun. */
module ObserverLimits {
  import opened Net
  import opened Text
  import opened Observer
  import opened ObserverProofs
  import opened ObserverCuts

  // ---------- a malformed rest ----------

  /** A rest that the framer refuses once its blank line is there. */
  predicate Malformed(tail: seq<byte>, response: bool, e: Reason) {
    FindDelimiter(tail).Some? && HeadFits(tail) && !TlsLike(tail) && Frame(tail, response, false) == Err(e)
  }

  /** Every prefix decides nothing, or the same. */
  lemma PrefixOfMalformed(tail: seq<byte>, response: bool, e: Reason, n: nat)
    requires Malformed(tail, response, e) && n <= |tail|
    ensures Frame(tail[..n], response, false) == Ok(None) || Frame(tail[..n], response, false) == Err(e)
  {
    hide ParseHead, BodyAt, FindDelimiter, TlsLike;
    var p := tail[..n];
    assert p + tail[n..] == tail;
    if FindDelimiter(p).Some? {
      if Frame(p, response, false) != Ok(None) {
        FrameStable(p, response, tail[n..]);
      }
    } else {
      NoDelimiterIsShort(tail, n);
    }
  }

  /** Whole messages come off the front of what follows them. */
  lemma {:induction false} DrainAll(s: State, ms: seq<seq<byte>>, p: seq<byte>, response: bool)
    requires AllObservable(ms, response) && s.pending == Flat(ms) + p
    ensures Drain(s, response, false) ==
      Drain(s.(pending := p, events := s.events + EventsOf(ms, response)), response, false)
    decreases |ms|
  {
    hide Drain, Complete, EventOf;
    if ms == [] {
      assert [] + p == p && s.events + [] == s.events;
    } else {
      var q := Flat(ms[1..]) + p;
      assert s.pending == ms[0] + q;
      var s1 := s.(pending := q, events := s.events + [EventOf(ms[0], response)]);
      DrainStep(s, ms[0], q, response);
      DrainAll(s1, ms[1..], p, response);
      assert s1.events + EventsOf(ms[1..], response) == s.events + EventsOf(ms, response);
    }
  }

  /** How many bytes of the rest have arrived. */
  function Arrived(ms: seq<seq<byte>>, n: nat): nat { if n <= |Flat(ms)| then 0 else n - |Flat(ms)| }

  /** A feed that reaches the refused part. */
  lemma FeedRefused(s: State, ms: seq<seq<byte>>, tail: seq<byte>, rest: seq<byte>, response: bool, e: Reason)
    requires AllObservable(ms, response) && s.pending + rest == Flat(ms) + tail && |s.pending| >= |Flat(ms)|
    requires Frame(tail[..|s.pending| - |Flat(ms)|], response, false) == Err(e)
    ensures Drain(s, response, false) == State([], true, s.events + EventsOf(ms, response) + [Skipped(e)])
  {
    hide Frame, Complete, EventsOf;
    var p := s.pending[|Flat(ms)|..];
    FrontOf(s.pending, rest, Flat(ms), tail);
    FrontOf(p, rest, tail, []);
    assert tail + [] == tail && p == tail[..|p|];
    DrainAll(s, ms, p, response);
  }

  /** A feed that does not. */
  lemma FeedWaits(s: State, ms: seq<seq<byte>>, tail: seq<byte>, rest: seq<byte>, response: bool)
    requires AllObservable(ms, response) && s.pending + rest == Flat(ms) + tail
    requires Arrived(ms, |s.pending|) <= |tail| && Quiet(tail[..Arrived(ms, |s.pending|)], response)
    ensures var s1, left := Drain(s, response, false), Left(ms, |s.pending|);
      && s1.disabled == s.disabled && AllObservable(left, response)
      && s1.pending + rest == Flat(left) + tail
      && |s1.pending| == Partial(ms, |s.pending|) && (left != [] ==> |s1.pending| < |left[0]|)
      && (left == [] ==> |s1.pending| <= Arrived(ms, |s.pending|))
      && s1.events + EventsOf(left, response) == s.events + EventsOf(ms, response)
  {
    hide Frame, Complete, EventsOf, Drain, Quiet;
    var k := Arrived(ms, |s.pending|);
    var more := (Flat(ms) + tail[..k])[|s.pending|..];
    CutShort(s.pending, rest, Flat(ms), tail, k);
    DrainTakesWhole(s, ms, tail[..k], more, response);
    var s1, left := Drain(s, response, false), Left(ms, |s.pending|);
    Extended(s.pending, more, Flat(ms), tail, k, rest);
    Rejoined(s1.pending, more, Flat(left), tail, k);
  }

  lemma CutShort(p: seq<byte>, rest: seq<byte>, front: seq<byte>, tail: seq<byte>, k: nat)
    requires k <= |tail| && p + rest == front + tail && |p| <= |front| + k
    ensures p + (front + tail[..k])[|p|..] == front + tail[..k]
  {
    var all := front + tail[..k];
    assert all == (front + tail)[..|all|];
    assert p == (p + rest)[..|p|] == all[..|p|];
  }

  lemma Rejoined(p: seq<byte>, more: seq<byte>, front: seq<byte>, tail: seq<byte>, k: nat)
    requires k <= |tail| && p + more == front + tail[..k]
    ensures p + (more + tail[k..]) == front + tail
  {
    assert p + (more + tail[k..]) == (front + tail[..k]) + tail[k..];
    assert tail[..k] + tail[k..] == tail;
  }

  lemma Extended(p: seq<byte>, more: seq<byte>, front: seq<byte>, tail: seq<byte>, k: nat, rest: seq<byte>)
    requires k <= |tail| && p + more == front + tail[..k] && p + rest == front + tail
    ensures rest == more + tail[k..]
  {
    assert tail == tail[..k] + tail[k..];
    assert p + rest == p + (more + tail[k..]) by { assert (p + more) + tail[k..] == p + (more + tail[k..]); }
    assert rest == (p + rest)[|p|..] && more + tail[k..] == (p + (more + tail[k..]))[|p|..];
  }

  /** The length of the shortest refused prefix. */
  ghost predicate FirstRefused(tail: seq<byte>, response: bool, e: Reason, n: nat) {
    && 0 < n <= |tail|
    && (forall k :: 0 <= k < n ==> Frame(tail[..k], response, false) == Ok(None))
    && (forall k :: n <= k <= |tail| ==> Frame(tail[..k], response, false) == Err(e))
  }

  lemma RefusedStays(tail: seq<byte>, response: bool, e: Reason, n: nat, k: nat)
    requires Malformed(tail, response, e) && n <= k <= |tail| && Frame(tail[..n], response, false) == Err(e)
    ensures Frame(tail[..k], response, false) == Err(e)
  {
    hide ParseHead, BodyAt, FindDelimiter, TlsLike;
    var p := tail[..n];
    assert p + tail[n..] == tail && tail[..k] == p + tail[n..k];
    if FindDelimiter(p).None? {
      NoDelimiterIsShort(tail, n);
    }
    FrameStable(p, response, tail[n..k]);
  }

  lemma FindRefused(tail: seq<byte>, response: bool, e: Reason) returns (n: nat)
    requires Malformed(tail, response, e)
    ensures FirstRefused(tail, response, e, n)
  {
    hide Frame, Malformed;
    assert Frame([], response, false) == Ok(None) by { EmptyWaits(response); }
    assert tail[..0] == [] && tail[..|tail|] == tail;
    assert Frame(tail, response, false) == Err(e) by { MalformedFails(tail, response, e); }
    n := 1;
    while Frame(tail[..n], response, false) == Ok(None)
      invariant 0 < n <= |tail|
      invariant forall k :: 0 <= k < n ==> Frame(tail[..k], response, false) == Ok(None)
      decreases |tail| - n
    {
      n := n + 1;
    }
    PrefixOfMalformed(tail, response, e, n);
    forall k | n <= k <= |tail| ensures Frame(tail[..k], response, false) == Err(e) {
      RefusedStays(tail, response, e, n, k);
    }
  }

  lemma EmptyWaits(response: bool)
    ensures Frame([], response, false) == Ok(None)
  {
    assert Find<byte>([], CRLF2).None? && Find<byte>([], LF2).None?;
  }

  lemma MalformedFails(tail: seq<byte>, response: bool, e: Reason)
    requires Malformed(tail, response, e)
    ensures Frame(tail, response, false) == Err(e) && !TlsLike(tail) && tail != []
  {
    EmptyWaits(response);
  }

  lemma QuietUpTo(tail: seq<byte>, response: bool, e: Reason, n: nat, k: nat)
    requires FirstRefused(tail, response, e, n) && k < n
    ensures Quiet(tail[..k], response)
  {
    hide Frame;
    forall j | 0 <= j <= k ensures Frame(tail[..k][..j], response, false) == Ok(None) {
      assert tail[..k][..j] == tail[..j];
    }
  }

  lemma {:induction false} FeedsRefused(s: State, cuts: seq<seq<byte>>, ms: seq<seq<byte>>, tail: seq<byte>,
                                        response: bool, e: Reason, n: nat)
    requires AllObservable(ms, response) && FirstRefused(tail, response, e, n) && !TlsLike(tail) && !s.disabled
    requires s.pending + Flat(cuts) == Flat(ms) + tail && SafeCut(ms, |s.pending|, cuts)
    requires if ms == [] then |s.pending| < n else |s.pending| < |ms[0]|
    ensures FeedAll(s, cuts, response) == State([], true, s.events + EventsOf(ms, response) + [Skipped(e)])
    decreases |cuts|
  {
    hide Frame, Complete, TlsLike, Quiet, EventsOf, Drain, FirstRefused;
    RefusedWithin(tail, response, e, n);
    assert cuts != [] by { NotAllArrived(s.pending, ms, tail, cuts); }
    var fed := s.(pending := s.pending + cuts[0]);
    var rest := Flat(cuts[1..]);
    assert fed.pending + rest == s.pending + Flat(cuts);
    NoTlsAhead(ms, tail, fed.pending, rest, response);
    var s1 := Feed(s, cuts[0], response, false);
    assert s1 == Drain(fed, response, false);
    var k := Arrived(ms, |fed.pending|);
    assert k <= |tail| by { assert |fed.pending| <= |Flat(ms)| + |tail|; }
    if k >= n {
      RefusedAt(tail, response, e, n, k);
      FeedRefused(fed, ms, tail, rest, response, e);
      DisabledForGood(s1, cuts[1..], response);
    } else {
      QuietUpTo(tail, response, e, n, k);
      FeedWaits(fed, ms, tail, rest, response);
      FeedsRefused(s1, cuts[1..], Left(ms, |fed.pending|), tail, response, e, n);
    }
  }

  lemma RefusedWithin(tail: seq<byte>, response: bool, e: Reason, n: nat)
    requires FirstRefused(tail, response, e, n)
    ensures 0 < n <= |tail|
  {
  }

  lemma RefusedAt(tail: seq<byte>, response: bool, e: Reason, n: nat, k: nat)
    requires FirstRefused(tail, response, e, n) && n <= k <= |tail|
    ensures Frame(tail[..k], response, false) == Err(e)
  {
  }

  lemma NotAllArrived(p: seq<byte>, ms: seq<seq<byte>>, tail: seq<byte>, cuts: seq<seq<byte>>)
    requires p + Flat(cuts) == Flat(ms) + tail && if ms == [] then |p| < |tail| else |p| < |ms[0]|
    ensures cuts != []
  {
    assert |p + Flat(cuts)| == |Flat(ms) + tail|;
  }

  /**
   A malformed stream, however it is cut within the inspection limit, is reported up to the
   malformed message, which is skipped once and for the same reason; then the observer is silent.
   */
  lemma MalformedCutIndependence(cuts: seq<seq<byte>>, ms: seq<seq<byte>>, tail: seq<byte>, response: bool, e: Reason)
    requires AllObservable(ms, response) && Malformed(tail, response, e)
    requires Flat(cuts) == Flat(ms) + tail && SafeCut(ms, 0, cuts)
    ensures FeedAll(State([], false, []), cuts, response) == State([], true, EventsOf(ms, response) + [Skipped(e)])
  {
    hide Malformed, Complete, TlsLike, EventsOf, FirstRefused;
    var s := State([], false, []);
    assert s.pending + Flat(cuts) == Flat(cuts);
    forall i | 0 <= i < |ms| ensures |ms[i]| > 0 {
      ShortestMessage(ms[i], response);
    }
    MalformedFails(tail, response, e);
    var n := FindRefused(tail, response, e);
    RefusedWithin(tail, response, e, n);
    FeedsRefused(s, cuts, ms, tail, response, e, n);
    assert s.events + EventsOf(ms, response) == EventsOf(ms, response);
  }

  // ---------- what the relay reads ----------

  /** The relay's read buffer. */
  const READ_SIZE: nat := 16 * 1024

  lemma {:induction false} LeftLength(ms: seq<seq<byte>>, n: nat)
    ensures n + |Flat(Left(ms, n))| == |Flat(ms)| + Partial(ms, n)
    ensures Left(ms, n) != [] ==> Partial(ms, n) < |Left(ms, n)[0]|
    ensures forall i :: 0 <= i < |Left(ms, n)| ==> Left(ms, n)[i] in ms
  {
    if ms != [] && n >= |ms[0]| {
      LeftLength(ms[1..], n - |ms[0]|);
    }
  }

  /** Reads of the relay's size are safe when no message comes within a read of the inspection limit. */
  lemma {:induction false} ReadsAreSafe(ms: seq<seq<byte>>, partial: nat, cuts: seq<seq<byte>>, rest: nat)
    requires forall i :: 0 <= i < |cuts| ==> |cuts[i]| <= READ_SIZE
    requires forall i :: 0 <= i < |ms| ==> |ms[i]| + READ_SIZE <= LIMIT + HEADER_LIMIT + 1
    requires rest <= LIMIT + HEADER_LIMIT && partial + |Flat(cuts)| == |Flat(ms)| + rest
    requires ms != [] ==> partial < |ms[0]|
    ensures SafeCut(ms, partial, cuts)
    decreases |cuts|
  {
    if cuts != [] {
      var n := partial + |cuts[0]|;
      LeftLength(ms, n);
      ReadsAreSafe(Left(ms, n), Partial(ms, n), cuts[1..], rest);
    }
  }

  // ---------- a head that ends just behind the limit ----------

  /**
   A message whose blank line ends two to four bytes behind the header limit is reported when it
   arrives whole, and given up when its blank line arrives in two parts.
   */
  lemma LateHeadDependsOnCut(m: seq<byte>, response: bool)
    requires Complete(m, response) && !HeadFits(m) && !TlsLike(m) && |m| <= LIMIT + HEADER_LIMIT
    ensures var d := FindDelimiter(m).value; var n := d.end + d.size - 1;
      && n < |m|
      && FeedAll(State([], false, []), [m], response) == State([], false, [EventOf(m, response)])
      && FeedAll(State([], false, []), [m[..n], m[n..]], response) == State([], true, [Skipped(HeaderLimit)])
  {
    hide ParseHead, BodyAt, FindDelimiter, TlsLike, Drain;
    CompleteHasDelimiter(m, response);
    var d := FindDelimiter(m).value;
    var n := d.end + d.size - 1;
    var s, p := State([], false, []), m[..n];
    assert s.pending + m == m && s.pending + p == p && p + m[n..] == m;
    OneMessage(m, response);
    if FindDelimiter(p).Some? {
      DelimiterStable(p, m[n..]);
    }
    assert Frame(p, response, false) == Err(HeaderLimit);
    assert !TlsLike(p) by { TlsPrefix(m, n); }
    assert Feed(s, p, response, false) == Drain(s.(pending := p), response, false);
    Refuses(s.(pending := p), response, HeaderLimit);
    var off := State([], true, [Skipped(HeaderLimit)]);
    assert Feed(s, p, response, false) == off by { assert [] + [Skipped(HeaderLimit)] == off.events; }
    DisabledForGood(off, [m[n..]], response);
    TwoFeeds(s, p, m[n..], response);
    OneFeed(s, m, response);
  }

  lemma OneFeed(s: State, a: seq<byte>, response: bool)
    ensures FeedAll(s, [a], response) == Feed(s, a, response, false)
  {
    hide Feed;
    assert [a][1..] == [];
  }

  lemma TwoFeeds(s: State, a: seq<byte>, b: seq<byte>, response: bool)
    ensures FeedAll(s, [a, b], response) == FeedAll(Feed(s, a, response, false), [b], response)
  {
    hide Feed;
    assert [a, b][1..] == [b];
  }

  lemma OneMessage(m: seq<byte>, response: bool)
    requires Complete(m, response)
    ensures Drain(State(m, false, []), response, false) == State([], false, [EventOf(m, response)])
  {
    hide Frame, Complete;
    var s := State(m, false, []);
    assert m + [] == m;
    DrainStep(s, m, [], response);
    assert [] + [EventOf(m, response)] == [EventOf(m, response)];
    NothingQuiet(State([], false, [EventOf(m, response)]), response);
  }

  lemma Refuses(s: State, response: bool, e: Reason)
    requires Frame(s.pending, response, false) == Err(e)
    ensures Drain(s, response, false) == State([], true, s.events + [Skipped(e)])
  {
  }

  lemma TlsPrefix(m: seq<byte>, n: nat)
    requires !TlsLike(m) && n <= |m|
    ensures !TlsLike(m[..n])
  {
  }
}
