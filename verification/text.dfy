/** The string operations of the Rust standard library that the proxy's parsers use. */
module Text {
  import opened Net

  // ---------- searching ----------

  predicate At<T(==)>(s: seq<T>, pat: seq<T>, i: nat) {
    i + |pat| <= |s| && s[i..i + |pat|] == pat
  }

  function FindFrom<T(==)>(s: seq<T>, pat: seq<T>, i: nat): (r: Option<nat>)
    ensures r.Some? ==> i <= r.value && r.value + |pat| <= |s|
    decreases |s| - i
  {
    if i + |pat| > |s| then None
    else if At(s, pat, i) then Some(i)
    else FindFrom(s, pat, i + 1)
  }

  /** Position of the first occurrence of a pattern. */
  function Find<T(==)>(s: seq<T>, pat: seq<T>): (r: Option<nat>)
    ensures r.Some? ==> r.value + |pat| <= |s|
  {
    FindFrom(s, pat, 0)
  }

  lemma {:induction false} FindFromSpec<T>(s: seq<T>, pat: seq<T>, i: nat)
    ensures FindFrom(s, pat, i).Some? ==>
      At(s, pat, FindFrom(s, pat, i).value) && forall j :: i <= j < FindFrom(s, pat, i).value ==> !At(s, pat, j)
    ensures FindFrom(s, pat, i).None? ==> forall j :: i <= j ==> !At(s, pat, j)
    decreases |s| - i
  {
    if i + |pat| <= |s| && !At(s, pat, i) {
      FindFromSpec(s, pat, i + 1);
    }
  }

  lemma FindSome<T>(s: seq<T>, pat: seq<T>)
    requires Find(s, pat).Some?
    ensures At(s, pat, Find(s, pat).value)
    ensures forall j :: 0 <= j < Find(s, pat).value ==> !At(s, pat, j)
  {
    FindFromSpec(s, pat, 0);
  }

  lemma FindNone<T>(s: seq<T>, pat: seq<T>)
    requires Find(s, pat).None?
    ensures forall j :: 0 <= j ==> !At(s, pat, j)
  {
    FindFromSpec(s, pat, 0);
  }

  /** The first occurrence is the only position with nothing before it. */
  lemma FindIs<T>(s: seq<T>, pat: seq<T>, i: nat)
    requires At(s, pat, i) && forall j :: 0 <= j < i ==> !At(s, pat, j)
    ensures Find(s, pat) == Some(i)
  {
    FindFromSpec(s, pat, 0);
  }

  /** A first occurrence stays the first when more text follows. */
  lemma FindStable<T>(s: seq<T>, pat: seq<T>, more: seq<T>)
    requires pat != [] && Find(s, pat).Some?
    ensures Find(s + more, pat) == Find(s, pat)
  {
    FindSome(s, pat);
    var i := Find(s, pat).value;
    assert At(s + more, pat, i) by { assert (s + more)[i..i + |pat|] == s[i..i + |pat|]; }
    forall j: nat | j < i ensures !At(s + more, pat, j) {
      assert !At(s, pat, j);
      assert (s + more)[j..j + |pat|] == s[j..j + |pat|];
    }
    FindIs(s + more, pat, i);
  }

  /** Position of the last occurrence of a pattern. */
  function RFind<T(==)>(s: seq<T>, pat: seq<T>): (r: Option<nat>)
    ensures r.Some? ==> At(s, pat, r.value)
  {
    RFindUpTo(s, pat, |s|)
  }

  function RFindUpTo<T(==)>(s: seq<T>, pat: seq<T>, i: nat): (r: Option<nat>)
    ensures r.Some? ==> r.value <= i && At(s, pat, r.value)
  {
    if At(s, pat, i) then Some(i) else if i == 0 then None else RFindUpTo(s, pat, i - 1)
  }

  lemma {:induction false} RFindUpToSpec<T>(s: seq<T>, pat: seq<T>, i: nat)
    ensures RFindUpTo(s, pat, i).Some? ==> forall j :: RFindUpTo(s, pat, i).value < j <= i ==> !At(s, pat, j)
    ensures RFindUpTo(s, pat, i).None? ==> forall j :: 0 <= j <= i ==> !At(s, pat, j)
  {
    if !At(s, pat, i) && i > 0 {
      RFindUpToSpec(s, pat, i - 1);
    }
  }

  /** The last occurrence is the only one with nothing after it. */
  lemma RFindIs<T>(s: seq<T>, pat: seq<T>, i: nat)
    requires At(s, pat, i) && forall j :: i < j <= |s| ==> !At(s, pat, j)
    ensures RFind(s, pat) == Some(i)
  {
    RFindUpToSpec(s, pat, |s|);
  }

  lemma RFindSpec<T>(s: seq<T>, pat: seq<T>)
    ensures RFind(s, pat).Some? ==> forall j :: RFind(s, pat).value < j <= |s| ==> !At(s, pat, j)
    ensures RFind(s, pat).None? ==> forall j :: 0 <= j <= |s| ==> !At(s, pat, j)
  {
    RFindUpToSpec(s, pat, |s|);
  }

  // ---------- splitting and joining ----------

  function SplitOn<T(==)>(s: seq<T>, pat: seq<T>): (r: seq<seq<T>>)
    requires pat != []
    ensures r != []
    decreases |s|
  {
    match Find(s, pat)
    case None => [s]
    case Some(i) => [s[..i]] + SplitOn(s[i + |pat|..], pat)
  }

  function Flat<T>(parts: seq<seq<T>>): seq<T> {
    if parts == [] then [] else parts[0] + Flat(parts[1..])
  }

  function Join<T>(parts: seq<seq<T>>, sep: seq<T>): seq<T> {
    if parts == [] then []
    else if |parts| == 1 then parts[0]
    else parts[0] + sep + Join(parts[1..], sep)
  }

  /** A joined text ends in its last part, with the separator before it. */
  lemma {:induction false} JoinEnds<T>(parts: seq<seq<T>>, sep: seq<T>)
    requires parts != []
    ensures var j, w := Join(parts, sep), parts[|parts| - 1];
      if |parts| == 1 then j == w else |j| >= |sep| + |w| && j[|j| - |sep| - |w|..] == sep + w
  {
    if |parts| > 1 {
      var j, w, tail := Join(parts, sep), parts[|parts| - 1], Join(parts[1..], sep);
      assert j == parts[0] + sep + tail;
      JoinEnds(parts[1..], sep);
      if |parts| > 2 {
        assert j[|j| - |sep| - |w|..] == tail[|tail| - |sep| - |w|..];
      }
    }
  }

  lemma Associate<T>(a: seq<T>, b: seq<T>, c: seq<T>)
    ensures a + (b + c) == (a + b) + c
  {
  }

  lemma JoinThree<T>(a: seq<T>, b: seq<T>, c: seq<T>, sep: seq<T>)
    ensures Join([a, b, c], sep) == a + sep + (b + sep + c)
  {
    assert [a, b, c][1..] == [b, c] && [b, c][1..] == [c];
    assert Join([c], sep) == c && Join([b, c], sep) == b + sep + c;
  }

  /** A part that a separator behind it ends exactly: the separator occurs no earlier. */
  predicate Clean<T(==)>(part: seq<T>, pat: seq<T>) {
    Find(part + pat, pat) == Some(|part|)
  }

  lemma CleanHasNone<T>(part: seq<T>, pat: seq<T>)
    requires pat != [] && Clean(part, pat)
    ensures Find(part, pat).None?
  {
    if Find(part, pat).Some? {
      FindStable(part, pat, pat);
    }
  }

  /** Splitting undoes joining when no part can be confused with the separator. */
  lemma {:induction false} SplitJoin<T>(parts: seq<seq<T>>, pat: seq<T>)
    requires pat != [] && parts != [] && forall i :: 0 <= i < |parts| ==> Clean(parts[i], pat)
    ensures SplitOn(Join(parts, pat), pat) == parts
  {
    CleanHasNone(parts[0], pat);
    if |parts| > 1 {
      var rest := Join(parts[1..], pat);
      SplitJoin(parts[1..], pat);
      FindStable(parts[0] + pat, pat, rest);
      var all := Join(parts, pat);
      assert all == parts[0] + pat + rest;
      assert all[..|parts[0]|] == parts[0] && all[|parts[0]| + |pat|..] == rest;
      assert [parts[0]] + parts[1..] == parts;
    }
  }

  lemma CleanOfOne<T>(part: seq<T>, c: T)
    requires c !in part
    ensures Clean(part, [c])
  {
    assert At(part + [c], [c], |part|);
    forall j: nat | j < |part| ensures !At(part + [c], [c], j) {
      assert (part + [c])[j..j + 1][0] == part[j];
    }
    FindIs(part + [c], [c], |part|);
  }

  /** Every part of a split is free of the one-element separator. */
  lemma {:induction false} SplitFree<T>(s: seq<T>, c: T)
    ensures forall i :: 0 <= i < |SplitOn(s, [c])| ==> c !in SplitOn(s, [c])[i]
    decreases |s|
  {
    var r := Find(s, [c]);
    if r.Some? {
      var i := r.value;
      SplitFree(s[i + 1..], c);
      FindSome(s, [c]);
      FreeBefore(s, c, i);
    } else {
      FindNone(s, [c]);
      FreeBefore(s, c, |s|);
    }
  }

  lemma FreeBefore<T>(s: seq<T>, c: T, n: nat)
    requires n <= |s| && forall j :: 0 <= j < n ==> !At(s, [c], j)
    ensures c !in s[..n] && s[..|s|] == s
  {
    forall j | 0 <= j < n ensures s[j] != c {
      assert !At(s, [c], j);
      assert s[j..j + 1] == [s[j]];
    }
  }

  // ---------- characters ----------

  /** The Unicode White_Space property. */
  predicate IsWhitespace(c: char) {
    var n := c as int;
    9 <= n <= 13 || n == 32 || n == 0x85 || n == 0xA0 || n == 0x1680 || 0x2000 <= n <= 0x200A
    || n == 0x2028 || n == 0x2029 || n == 0x202F || n == 0x205F || n == 0x3000
  }

  predicate IsControl(c: char) {
    var n := c as int;
    n < 0x20 || 0x7F <= n < 0xA0
  }

  function Lower(c: char): char {
    if 'A' <= c <= 'Z' then (c as int + 32) as char else c
  }

  predicate EqIgnoreCase(a: string, b: string) {
    |a| == |b| && forall i :: 0 <= i < |a| ==> Lower(a[i]) == Lower(b[i])
  }

  /** A text of any length. */
  function Letters(n: nat): string { seq(n, _ => 'a') }

  // ---------- trimming and words ----------

  function TrimStart(s: string): string {
    if s != [] && IsWhitespace(s[0]) then TrimStart(s[1..]) else s
  }

  function TrimEnd(s: string): string {
    if s != [] && IsWhitespace(s[|s| - 1]) then TrimEnd(s[..|s| - 1]) else s
  }

  function Trim(s: string): string { TrimEnd(TrimStart(s)) }

  /** Leading run of non-whitespace characters. */
  function WordEnd(s: string): (n: nat)
    ensures n <= |s| && (forall i :: 0 <= i < n ==> !IsWhitespace(s[i])) && (n < |s| ==> IsWhitespace(s[n]))
  {
    if s == [] || IsWhitespace(s[0]) then 0 else 1 + WordEnd(s[1..])
  }

  function Words(s: string): seq<string>
    decreases |s|
  {
    if s == [] then []
    else if IsWhitespace(s[0]) then Words(s[1..])
    else [s[..WordEnd(s)]] + Words(s[WordEnd(s)..])
  }

  /** A non-empty string without white space: what `Words` produces. */
  predicate IsWord(s: string) { s != [] && forall i :: 0 <= i < |s| ==> !IsWhitespace(s[i]) }

  lemma {:induction false} WordsAreWords(s: string)
    ensures forall i :: 0 <= i < |Words(s)| ==> IsWord(Words(s)[i])
    decreases |s|
  {
    if s != [] {
      if IsWhitespace(s[0]) {
        WordsAreWords(s[1..]);
      } else {
        WordsAreWords(s[WordEnd(s)..]);
      }
    }
  }

  lemma {:induction false} WordEndAt(w: string, rest: string)
    requires IsWord(w) && (rest == [] || IsWhitespace(rest[0]))
    ensures WordEnd(w + rest) == |w|
  {
    var s := w + rest;
    assert s[0] == w[0];
    if |w| > 1 {
      WordEndAt(w[1..], rest);
      assert s[1..] == w[1..] + rest;
    } else {
      assert s[1..] == rest;
    }
  }

  lemma WordsStep(w: string, rest: string)
    requires IsWord(w) && (rest == [] || IsWhitespace(rest[0]))
    ensures Words(w + rest) == [w] + Words(rest)
  {
    WordEndAt(w, rest);
    assert (w + rest)[..|w|] == w && (w + rest)[|w|..] == rest;
  }

  /** Words joined by single spaces split back into themselves. */
  lemma {:induction false} WordsOfJoin(ws: seq<string>)
    requires forall i :: 0 <= i < |ws| ==> IsWord(ws[i])
    ensures Words(Join(ws, " ")) == ws
  {
    if |ws| == 1 {
      WordsStep(ws[0], []);
      assert ws[0] + [] == ws[0];
    } else if |ws| > 1 {
      WordsOfJoin(ws[1..]);
      var tail := Join(ws[1..], " ");
      assert Join(ws, " ") == ws[0] + (" " + tail);
      WordsStep(ws[0], " " + tail);
      assert (" " + tail)[1..] == tail;
      assert [ws[0]] + ws[1..] == ws;
    }
  }

  function SplitOnce(s: string, c: char): Option<(string, string)> {
    match Find(s, [c])
    case None => None
    case Some(i) => Some((s[..i], s[i + 1..]))
  }

  /** Everything before the first occurrence of a character. */
  function Before(s: string, c: char): string {
    match Find(s, [c]) case None => s case Some(i) => s[..i]
  }

  lemma SplitAt(s: string, c: char, t: string)
    requires c !in s
    ensures SplitOnce(s + [c] + t, c) == Some((s, t)) && Before(s + [c] + t, c) == s
  {
    var u := s + [c] + t;
    CleanOfOne(s, c);
    FindStable(s + [c], [c], t);
    assert u[..|s|] == s && u[|s| + 1..] == t;
  }

  lemma SplitNot(s: string, c: char)
    requires c !in s
    ensures SplitOnce(s, c) == None && Before(s, c) == s
  {
    CleanOfOne(s, c);
    CleanHasNone(s, [c]);
  }

  function StripCr(s: string): string {
    if s != [] && s[|s| - 1] == '\r' then s[..|s| - 1] else s
  }

  /** Lines ended by LF or CRLF; the last line may lack its end, and then keeps a trailing CR. */
  function Lines(s: string): seq<string>
    decreases |s|
  {
    if s == [] then []
    else
      match Find(s, ['\n'])
      case None => [s]
      case Some(i) => [StripCr(s[..i])] + Lines(s[i + 1..])
  }

  // ---------- numbers ----------

  function DigitValue(c: char): nat {
    if '0' <= c <= '9' then c as int - '0' as int
    else if 'a' <= c <= 'z' then c as int - 'a' as int + 10
    else if 'A' <= c <= 'Z' then c as int - 'A' as int + 10
    else 36
  }

  datatype Radix = Decimal | Hex

  function Base(r: Radix): nat { match r case Decimal => 10 case Hex => 16 }

  function TimesBase(r: Radix, n: nat): nat { match r case Decimal => n * 10 case Hex => n * 16 }

  function ParseDigits(s: string, r: Radix): Option<nat>
  {
    if s == [] then Some(0)
    else
      var d := DigitValue(s[|s| - 1]);
      if d >= Base(r) then None
      else match ParseDigits(s[..|s| - 1], r)
        case None => None
        case Some(n) => Some(TimesBase(r, n) + d)
  }

  /** Unsigned parsing: an optional plus sign, at least one digit, no overflow. */
  function ParseUnsigned(s: string, r: Radix, bound: nat): Option<nat> {
    var digits := if s != [] && s[0] == '+' then s[1..] else s;
    if digits == [] then None
    else match ParseDigits(digits, r)
      case None => None
      case Some(n) => if n < bound then Some(n) else None
  }

  const U16_BOUND: nat := 0x1_0000
  const USIZE_BOUND: nat := 0x1_0000_0000_0000_0000

  function DigitChar(d: nat): char
    requires d < 16
  {
    if d < 10 then ('0' as int + d) as char else ('a' as int + d - 10) as char
  }

  /** Digits of a number, most significant first, no leading zeros. */
  function Show(n: nat, r: Radix): (s: string)
    ensures s != []
  {
    if n < Base(r) then [DigitChar(n)]
    else match r
      case Decimal => Show(n / 10, r) + [DigitChar(n % 10)]
      case Hex => Show(n / 16, r) + [DigitChar(n % 16)]
  }

  predicate IsDigits(s: string, r: Radix) { forall i :: 0 <= i < |s| ==> DigitValue(s[i]) < Base(r) }

  lemma AppendDigit(s: string, c: char, r: Radix, n: nat, d: nat)
    requires ParseDigits(s, r) == Some(n) && DigitValue(c) == d < Base(r) && IsDigits(s, r)
    ensures ParseDigits(s + [c], r) == Some(TimesBase(r, n) + d) && IsDigits(s + [c], r)
  {
    assert (s + [c])[..|s|] == s;
  }

  function High(n: nat, r: Radix): nat { match r case Decimal => n / 10 case Hex => n / 16 }

  function Low(n: nat, r: Radix): nat { match r case Decimal => n % 10 case Hex => n % 16 }

  lemma DigitStep(n: nat, r: Radix)
    ensures Low(n, r) < 16 && DigitValue(DigitChar(Low(n, r))) == Low(n, r) < Base(r)
    ensures TimesBase(r, High(n, r)) + Low(n, r) == n
    ensures n >= Base(r) ==> Show(n, r) == Show(High(n, r), r) + [DigitChar(Low(n, r))] && High(n, r) < n
    ensures n < Base(r) ==> Show(n, r) == [DigitChar(Low(n, r))] && n == Low(n, r)
  {
  }

  lemma {:induction false} ShowParses(n: nat, r: Radix)
    ensures ParseDigits(Show(n, r), r) == Some(n)
    ensures IsDigits(Show(n, r), r)
  {
    hide High, Low, DigitValue, DigitChar, TimesBase, IsDigits, Show, ParseDigits;
    DigitStep(n, r);
    if n < Base(r) {
      assert ParseDigits([], r) == Some(0) && TimesBase(r, 0) == 0 && IsDigits([], r) by { NoDigits(r); }
      AppendDigit([], DigitChar(n), r, 0, n);
      assert [] + [DigitChar(n)] == [DigitChar(n)];
    } else {
      ShowParses(High(n, r), r);
      AppendDigit(Show(High(n, r), r), DigitChar(Low(n, r)), r, High(n, r), Low(n, r));
    }
  }

  lemma NoDigits(r: Radix)
    ensures ParseDigits([], r) == Some(0) && TimesBase(r, 0) == 0 && IsDigits([], r)
  {
  }

  /** Printing a number and parsing it gives the number back. */
  lemma ShowParsesUnsigned(n: nat, r: Radix, bound: nat)
    requires n < bound
    ensures ParseUnsigned(Show(n, r), r, bound) == Some(n)
  {
    ShowParses(n, r);
    assert DigitValue('+') == 36;
  }
}
