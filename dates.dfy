/**
 * The date regular expression of `extractDate`,
 * `(\d{1,2}[\/\-]\d{1,2}[\/\-]\d{2,4})|(\d{4}[\/\-]\d{1,2}[\/\-]\d{1,2})`,
 * as a backtracking matcher over a small token language, together with a
 * declarative description of the strings each alternative denotes.
 */
module Dates {
  import opened Wrappers
  import opened Text
  import opened Numbers

  /** One element of a date pattern: `\d{lo,hi}` or the separator class `[\/\-]`. */
  datatype Token = Digits(lo: nat, hi: nat) | Sep

  predicate IsSep(c: char) {
    c == '/' || c == '-'
  }

  /** `\d{1,2}[\/\-]\d{1,2}[\/\-]\d{2,4}`, the first alternative. */
  const DayFirst: seq<Token> := [Digits(1, 2), Sep, Digits(1, 2), Sep, Digits(2, 4)]

  /** `\d{4}[\/\-]\d{1,2}[\/\-]\d{1,2}`, the second alternative. */
  const YearFirst: seq<Token> := [Digits(4, 4), Sep, Digits(1, 2), Sep, Digits(1, 2)]

  predicate DigitsBetween(s: string, a: nat, b: nat)
    requires a <= b <= |s|
  {
    forall k :: a <= k < b ==> IsDigit(s[k])
  }

  /** Bounds the extra work a leading `\d{lo,hi}` may do: one step per repetition count. */
  function Rank(pat: seq<Token>): nat {
    if |pat| > 0 && pat[0].Digits? then pat[0].hi + 1 else 0
  }

  /**
   * Declarative meaning of a pattern: `s[i..e]` is made of the tokens of
   * `pat`, each `\d{lo,hi}` covering between `lo` and `hi` digits.
   */
  ghost predicate Spans(s: string, i: nat, e: nat, pat: seq<Token>)
    requires i <= e <= |s|
    decreases |pat|, 1
  {
    if |pat| == 0 then i == e
    else
      match pat[0]
      case Sep => i < e && IsSep(s[i]) && Spans(s, i + 1, e, pat[1..])
      case Digits(lo, hi) => exists c :: lo <= c <= hi && DigitsThen(s, i, e, c, pat[1..])
  }

  /** `s[i..e]` is `c` digits followed by a piece that `rest` spans. */
  ghost predicate DigitsThen(s: string, i: nat, e: nat, c: nat, rest: seq<Token>)
    requires i <= e <= |s|
    decreases |rest| + 1, 0
  {
    i + c <= e && DigitsBetween(s, i, i + c) && Spans(s, i + c, e, rest)
  }

  /** The alternatives of the date regular expression, in the order the engine tries them. */
  const DateRegex: seq<seq<Token>> := [DayFirst, YearFirst]

  /** `s[i..e]` is spanned by one of the alternatives `alts`. */
  ghost predicate AnySpans(s: string, i: nat, e: nat, alts: seq<seq<Token>>)
    requires i <= e <= |s|
    decreases |alts|
  {
    |alts| > 0 && (Spans(s, i, e, alts[0]) || AnySpans(s, i, e, alts[1..]))
  }

  /** `w` has one of the two date shapes. */
  ghost predicate IsDateText(w: string) {
    AnySpans(w, 0, |w|, DateRegex)
  }

  /**
   * The regular-expression engine on `pat` at index `i`: the end of the first
   * successful path, where every `\d{lo,hi}` tries the most repetitions first
   * and gives one back whenever the rest of the pattern fails.
   */
  function MatchFrom(s: string, i: nat, pat: seq<Token>): (r: Option<nat>)
    requires i <= |s|
    ensures r.Some? ==> i <= r.value <= |s|
    decreases |pat|, Rank(pat)
  {
    if |pat| == 0 then Some(i)
    else
      match pat[0]
      case Sep => if i < |s| && IsSep(s[i]) then MatchFrom(s, i + 1, pat[1..]) else None
      case Digits(lo, hi) => TryCount(s, i, lo, hi, pat[1..])
  }

  /** `\d{lo,k}` followed by `rest`: `k` digits first, then `k - 1`, down to `lo`. */
  function TryCount(s: string, i: nat, lo: nat, k: nat, rest: seq<Token>): (r: Option<nat>)
    requires i <= |s|
    ensures r.Some? ==> i <= r.value <= |s|
    decreases |rest| + 1, k
  {
    if k < lo then None
    else if i + k <= |s| && DigitsBetween(s, i, i + k) && MatchFrom(s, i + k, rest).Some? then
      MatchFrom(s, i + k, rest)
    else if k == 0 then None
    else TryCount(s, i, lo, k - 1, rest)
  }

  /** What the engine matches has the shape the pattern describes. */
  lemma {:induction false} MatchSound(s: string, i: nat, pat: seq<Token>)
    requires i <= |s| && MatchFrom(s, i, pat).Some?
    ensures Spans(s, i, MatchFrom(s, i, pat).value, pat)
    decreases |pat|, Rank(pat)
  {
    if |pat| > 0 {
      match pat[0]
      case Sep => MatchSound(s, i + 1, pat[1..]);
      case Digits(lo, hi) => TryCountSound(s, i, lo, hi, pat[1..]);
    }
  }

  lemma {:induction false} TryCountSound(s: string, i: nat, lo: nat, k: nat, rest: seq<Token>)
    requires i <= |s| && TryCount(s, i, lo, k, rest).Some?
    ensures var e := TryCount(s, i, lo, k, rest).value;
            exists c :: lo <= c <= k && DigitsThen(s, i, e, c, rest)
    decreases |rest| + 1, k
  {
    var e := TryCount(s, i, lo, k, rest).value;
    if i + k <= |s| && DigitsBetween(s, i, i + k) && MatchFrom(s, i + k, rest).Some? {
      MatchSound(s, i + k, rest);
      assert DigitsThen(s, i, e, k, rest);
    } else {
      TryCountSound(s, i, lo, k - 1, rest);
    }
  }

  /** Whenever some piece of `s` starting at `i` has the shape, the engine finds a match at `i`. */
  lemma {:induction false} MatchComplete(s: string, i: nat, e: nat, pat: seq<Token>)
    requires i <= e <= |s| && Spans(s, i, e, pat)
    ensures MatchFrom(s, i, pat).Some?
    decreases |pat|, Rank(pat)
  {
    if |pat| > 0 {
      match pat[0]
      case Sep => MatchComplete(s, i + 1, e, pat[1..]);
      case Digits(lo, hi) =>
        var c :| lo <= c <= hi && DigitsThen(s, i, e, c, pat[1..]);
        TryCountComplete(s, i, lo, hi, pat[1..], c, e);
    }
  }

  lemma {:induction false} TryCountComplete(s: string, i: nat, lo: nat, k: nat, rest: seq<Token>, c: nat, e: nat)
    requires lo <= c <= k && i + c <= e <= |s|
    requires DigitsBetween(s, i, i + c) && Spans(s, i + c, e, rest)
    ensures TryCount(s, i, lo, k, rest).Some?
    decreases |rest| + 1, k
  {
    if k == c {
      MatchComplete(s, i + c, e, rest);
    } else if !(i + k <= |s| && DigitsBetween(s, i, i + k) && MatchFrom(s, i + k, rest).Some?) {
      TryCountComplete(s, i, lo, k - 1, rest, c, e);
    }
  }

  /** The shape of `s[i..e]` does not depend on the text around it. */
  lemma {:induction false} SpansShift(s: string, a: nat, b: nat, i: nat, e: nat, pat: seq<Token>)
    requires a <= i <= e <= b <= |s|
    ensures Spans(s, i, e, pat) <==> Spans(s[a..b], i - a, e - a, pat)
    decreases |pat|
  {
    var t := s[a..b];
    if |pat| > 0 {
      match pat[0]
      case Sep =>
        if i < e { SpansShift(s, a, b, i + 1, e, pat[1..]); }
      case Digits(lo, hi) =>
        assert Spans(s, i, e, pat) <==> exists c :: lo <= c <= hi && DigitsThen(s, i, e, c, pat[1..]);
        if Spans(s, i, e, pat) {
          var c :| lo <= c <= hi && DigitsThen(s, i, e, c, pat[1..]);
          SpansShift(s, a, b, i + c, e, pat[1..]);
          assert DigitsBetween(t, i - a, i - a + c) by {
            forall k | i - a <= k < i - a + c ensures IsDigit(t[k]) {
              assert t[k] == s[a + k];
              assert IsDigit(s[a + k]);
            }
          }
          assert DigitsThen(t, i - a, e - a, c, pat[1..]);
        }
        if Spans(t, i - a, e - a, pat) {
          var c :| lo <= c <= hi && DigitsThen(t, i - a, e - a, c, pat[1..]);
          SpansShift(s, a, b, i + c, e, pat[1..]);
          assert DigitsBetween(s, i, i + c) by {
            forall k | i <= k < i + c ensures IsDigit(s[k]) {
              assert s[k] == t[k - a];
              assert IsDigit(t[k - a]);
            }
          }
          assert DigitsThen(s, i, e, c, pat[1..]);
        }
    }
  }

  /** One try of the alternatives `alts` at index `p`, in order: the end of the first that matches. */
  function AltAt(s: string, p: nat, alts: seq<seq<Token>>): (r: Option<nat>)
    requires p <= |s|
    ensures r.Some? ==> p <= r.value <= |s|
    decreases |alts|
  {
    if |alts| == 0 then None
    else
      var first := MatchFrom(s, p, alts[0]);
      if first.Some? then first else AltAt(s, p, alts[1..])
  }

  /** No piece of `s` starting at `q` is spanned by an alternative. */
  ghost predicate NoMatchAt(s: string, q: nat, alts: seq<seq<Token>>)
    requires q <= |s|
  {
    forall e :: q <= e <= |s| ==> !AnySpans(s, q, e, alts)
  }

  /** A try at `p` succeeds exactly when some piece of `s` starting at `p` is spanned by an alternative, and what it matches is. */
  lemma {:induction false} AltAtSpec(s: string, p: nat, alts: seq<seq<Token>>)
    requires p <= |s|
    ensures AltAt(s, p, alts).Some? ==> AnySpans(s, p, AltAt(s, p, alts).value, alts)
    ensures AltAt(s, p, alts).None? ==> NoMatchAt(s, p, alts)
    decreases |alts|
  {
    if |alts| > 0 {
      AltAtSpec(s, p, alts[1..]);
      if MatchFrom(s, p, alts[0]).Some? {
        MatchSound(s, p, alts[0]);
      } else {
        forall e | p <= e <= |s| ensures Spans(s, p, e, alts[0]) == false {
          if Spans(s, p, e, alts[0]) { MatchComplete(s, p, e, alts[0]); }
        }
      }
    }
  }

  /** Where a match lies in the searched string. */
  datatype Span = Span(start: nat, end: nat)

  /** A regular-expression search from index `p`: where the leftmost match lies. */
  function SpanFrom(s: string, p: nat, alts: seq<seq<Token>>): (r: Option<Span>)
    requires p <= |s|
    ensures r.Some? ==> p <= r.value.start <= r.value.end <= |s|
    decreases |s| - p
  {
    var here := AltAt(s, p, alts);
    if here.Some? then Some(Span(p, here.value))
    else if p == |s| then None
    else SpanFrom(s, p + 1, alts)
  }

  /**
   * The match found from `p` on is spanned by an alternative, and no piece
   * of `s` starting earlier (from `p` on) is; there is no match only when no
   * piece from `p` on is.
   */
  lemma {:induction false} SpanFromSpec(s: string, p: nat, alts: seq<seq<Token>>)
    requires p <= |s|
    ensures SpanFrom(s, p, alts).Some? ==>
              var m := SpanFrom(s, p, alts).value;
              AnySpans(s, m.start, m.end, alts) && forall q :: p <= q < m.start ==> NoMatchAt(s, q, alts)
    ensures SpanFrom(s, p, alts).None? ==> forall q :: p <= q <= |s| ==> NoMatchAt(s, q, alts)
    decreases |s| - p
  {
    AltAtSpec(s, p, alts);
    if AltAt(s, p, alts).None? && p < |s| {
      SpanFromSpec(s, p + 1, alts);
    }
  }

  /** A piece of a string spanned by an alternative is spanned by it on its own. */
  lemma {:induction false} ShapeOfPiece(s: string, q: nat, e: nat, alts: seq<seq<Token>>)
    requires q <= e <= |s| && AnySpans(s, q, e, alts)
    ensures AnySpans(s[q..e], 0, e - q, alts)
    decreases |alts|
  {
    assert |s[q..e]| == e - q;
    if Spans(s, q, e, alts[0]) {
      SpansShift(s, q, e, q, e, alts[0]);
    } else {
      ShapeOfPiece(s, q, e, alts[1..]);
    }
  }

  /** `line.match(dateRegex)?.[0]`: the text of the leftmost match. */
  function FindDate(line: string): (r: Option<string>)
    ensures r.Some? <==> SpanFrom(line, 0, DateRegex).Some?
  {
    match SpanFrom(line, 0, DateRegex)
    case None => None
    case Some(m) => Some(line[m.start..m.end])
  }

  /** A found date is the text of the match and has one of the two shapes on its own, with no calendar check. */
  lemma FoundDateShape(line: string)
    requires FindDate(line).Some?
    ensures var m := SpanFrom(line, 0, DateRegex).value;
            FindDate(line).value == line[m.start..m.end] && IsDateText(FindDate(line).value)
  {
    SpanFromPiece(line, DateRegex);
    var m := SpanFrom(line, 0, DateRegex).value;
    assert |line[m.start..m.end]| == m.end - m.start;
  }

  /** The text of the leftmost match is spanned by an alternative on its own. */
  lemma SpanFromPiece(s: string, alts: seq<seq<Token>>)
    requires SpanFrom(s, 0, alts).Some?
    ensures var m := SpanFrom(s, 0, alts).value;
            AnySpans(s[m.start..m.end], 0, m.end - m.start, alts)
  {
    SpanFromSpec(s, 0, alts);
    var m := SpanFrom(s, 0, alts).value;
    ShapeOfPiece(s, m.start, m.end, alts);
  }

  /**
   * Every `\d{lo,hi}` of `pat` except a last one is followed by a separator,
   * so how many digits it covers is fixed by where the next separator stands.
   */
  predicate SepAfterDigits(pat: seq<Token>) {
    forall k :: 0 <= k < |pat| - 1 && pat[k].Digits? ==> pat[k + 1] == Sep
  }

  /** The digit run at `i` ends at `j` when digits reach `j` and a separator stands there. */
  lemma RunEndsAtSep(s: string, i: nat, j: nat)
    requires i <= j < |s| && DigitsBetween(s, i, j) && IsSep(s[j])
    ensures DigitRunEnd(s, i) == j
    decreases j - i
  {
    if i < j {
      RunEndsAtSep(s, i + 1, j);
    }
  }

  /** A piece spanned by a pattern that opens with `\d{lo,hi}` and a separator starts with a digit run of `lo` to `hi` digits. */
  lemma LeadingRun(s: string, i: nat, e: nat, pat: seq<Token>)
    requires i <= e <= |s| && |pat| >= 2 && pat[0].Digits? && pat[1] == Sep
    ensures Spans(s, i, e, pat) ==> pat[0].lo <= DigitRunEnd(s, i) - i <= pat[0].hi
  {
    var lo, hi := pat[0].lo, pat[0].hi;
    assert Spans(s, i, e, pat) <==> exists c :: lo <= c <= hi && DigitsThen(s, i, e, c, pat[1..]);
    if Spans(s, i, e, pat) {
      var c :| lo <= c <= hi && DigitsThen(s, i, e, c, pat[1..]);
      var rest := pat[1..];
      assert rest[0] == Sep;
      assert Spans(s, i + c, e, rest) ==> i + c < e && IsSep(s[i + c]);
      RunEndsAtSep(s, i, i + c);
    }
  }

  /**
   * When every digit count but the last is fixed by a separator, the engine's
   * match is the longest piece the pattern spans: the last `\d{lo,hi}`
   * takes as many digits as it can.
   */
  lemma {:induction false} MatchLongest(s: string, i: nat, e: nat, pat: seq<Token>)
    requires i <= e <= |s| && SepAfterDigits(pat) && MatchFrom(s, i, pat).Some?
    ensures Spans(s, i, e, pat) ==> e <= MatchFrom(s, i, pat).value
    decreases |pat|, Rank(pat)
  {
    if |pat| > 0 && Spans(s, i, e, pat) {
      assert SepAfterDigits(pat[1..]) by {
        forall k | 0 <= k < |pat[1..]| - 1 && pat[1..][k].Digits? ensures pat[1..][k + 1] == Sep {
          assert pat[1..][k] == pat[k + 1];
        }
      }
      match pat[0]
      case Sep => MatchLongest(s, i + 1, e, pat[1..]);
      case Digits(lo, hi) =>
        assert Spans(s, i, e, pat) <==> exists c :: lo <= c <= hi && DigitsThen(s, i, e, c, pat[1..]);
        var c :| lo <= c <= hi && DigitsThen(s, i, e, c, pat[1..]);
        assert |pat| > 1 ==> pat[1..][0] == Sep;
        TryCountLongest(s, i, lo, hi, pat[1..], c, e);
    }
  }

  lemma {:induction false} TryCountLongest(s: string, i: nat, lo: nat, k: nat, rest: seq<Token>, c: nat, e: nat)
    requires lo <= c <= k && i + c <= e <= |s|
    requires DigitsBetween(s, i, i + c) && Spans(s, i + c, e, rest)
    requires SepAfterDigits(rest) && (|rest| > 0 ==> rest[0] == Sep)
    ensures TryCount(s, i, lo, k, rest).Some? && e <= TryCount(s, i, lo, k, rest).value
    decreases |rest| + 1, k
  {
    TryCountComplete(s, i, lo, k, rest, c, e);
    if i + k <= |s| && DigitsBetween(s, i, i + k) && MatchFrom(s, i + k, rest).Some? {
      if |rest| == 0 {
        assert e == i + c;
      } else {
        // the piece continues with a separator right after its `c` digits, so no more digits were taken
        assert IsSep(s[i + c]) && !IsDigit(s[i + c]);
        assert k <= c;
        MatchLongest(s, i + c, e, rest);
      }
    } else {
      MatchComplete(s, i + c, e, rest);
      TryCountLongest(s, i, lo, k - 1, rest, c, e);
    }
  }

  /**
   * `a` and `b` each fix their digit counts by separators and open with
   * `\d{lo,hi}` and a separator, `a` allowing fewer leading digits than `b`
   * needs.
   */
  predicate Exclusive(a: seq<Token>, b: seq<Token>) {
    SepAfterDigits(a) && SepAfterDigits(b) &&
    |a| >= 2 && |b| >= 2 && a[0].Digits? && b[0].Digits? && a[1] == Sep && b[1] == Sep &&
    a[0].hi < b[0].lo
  }

  /** The two date alternatives: one or two leading digits against four. */
  lemma DateAltsExclusive()
    ensures DateRegex == [DayFirst, YearFirst] && Exclusive(DayFirst, YearFirst)
  {
  }

  /**
   * Two alternatives whose leading digit counts cannot agree never both span
   * a piece from the same index, so the try at `p` ends the longest piece
   * either of them spans.
   */
  lemma AltAtLongest(s: string, p: nat, e: nat, a: seq<Token>, b: seq<Token>)
    requires p <= e <= |s| && AltAt(s, p, [a, b]).Some? && Exclusive(a, b)
    ensures AnySpans(s, p, e, [a, b]) ==> e <= AltAt(s, p, [a, b]).value
  {
    assert [a, b][1..] == [b] && [b][1..] == [];
    assert AnySpans(s, p, e, [b]) <==> Spans(s, p, e, b);
    assert AnySpans(s, p, e, [a, b]) <==> Spans(s, p, e, a) || Spans(s, p, e, b);
    assert AltAt(s, p, [b]) == if MatchFrom(s, p, b).Some? then MatchFrom(s, p, b) else None;
    if MatchFrom(s, p, a).Some? {
      MatchSound(s, p, a);
      var m := MatchFrom(s, p, a).value;
      LeadingRun(s, p, m, a);
      LeadingRun(s, p, e, b);
      MatchLongest(s, p, e, a);
    } else {
      if Spans(s, p, e, a) { MatchComplete(s, p, e, a); }
      MatchLongest(s, p, e, b);
    }
  }

  /** The leftmost match found from `p` is the try of the alternatives at its start. */
  lemma {:induction false} SpanFromAt(s: string, p: nat, alts: seq<seq<Token>>)
    requires p <= |s| && SpanFrom(s, p, alts).Some?
    ensures var m := SpanFrom(s, p, alts).value;
            AltAt(s, m.start, alts) == Some(m.end)
    decreases |s| - p
  {
    if AltAt(s, p, alts).None? {
      SpanFromAt(s, p + 1, alts);
    }
  }

  /**
   * `line.match` of the date expression returns the longest date-shaped
   * piece at the leftmost index that has one: `1/2/2024`, not `1/2/20`.
   */
  lemma DateMatchLongest(s: string)
    requires SpanFrom(s, 0, DateRegex).Some?
    ensures var m := SpanFrom(s, 0, DateRegex).value;
            forall e :: m.end < e <= |s| ==> !AnySpans(s, m.start, e, DateRegex)
  {
    var m := SpanFrom(s, 0, DateRegex).value;
    SpanFromAt(s, 0, DateRegex);
    DateAltsExclusive();
    forall e | m.end < e <= |s| ensures !AnySpans(s, m.start, e, DateRegex) {
      AltAtLongest(s, m.start, e, DayFirst, YearFirst);
    }
  }
}

/** `extractDate`: the first line, in document order, that holds a date. */
module DateExtraction {
  import opened Wrappers
  import opened Dates

  /** The index of the first line at or after `i` that holds a date. */
  function DateLineFrom(lines: seq<string>, i: nat): (r: Option<nat>)
    requires i <= |lines|
    ensures r.Some? ==> i <= r.value < |lines| && FindDate(lines[r.value]).Some? &&
                        forall j :: i <= j < r.value ==> FindDate(lines[j]).None?
    ensures r.None? ==> forall j :: i <= j < |lines| ==> FindDate(lines[j]).None?
    decreases |lines| - i
  {
    if i == |lines| then None
    else if FindDate(lines[i]).Some? then Some(i)
    else DateLineFrom(lines, i + 1)
  }

  /** `extractDate(lines)`: the match of the first line that has one. */
  function ExtractDate(lines: seq<string>): Option<string> {
    match DateLineFrom(lines, 0)
    case None => None
    case Some(j) => FindDate(lines[j])
  }

  /**
   * A returned date comes unmodified from line `j`, the first line that
   * holds any date: no piece of an earlier line has a date shape. It is the
   * longest date-shaped piece at the leftmost index of line `j` that starts
   * one, and has one of the two shapes on its own. When no piece of any line has a date shape there is no date.
   */
  lemma ExtractDateSpec(lines: seq<string>)
    ensures ExtractDate(lines).Some? <==> DateLineFrom(lines, 0).Some?
    ensures ExtractDate(lines).Some? ==>
              var j := DateLineFrom(lines, 0).value;
              var m := SpanFrom(lines[j], 0, DateRegex).value;
              ExtractDate(lines).value == lines[j][m.start..m.end] &&
              IsDateText(ExtractDate(lines).value) &&
              AnySpans(lines[j], m.start, m.end, DateRegex) &&
              (forall q :: 0 <= q < m.start ==> NoMatchAt(lines[j], q, DateRegex)) &&
              (forall e :: m.end < e <= |lines[j]| ==> !AnySpans(lines[j], m.start, e, DateRegex)) &&
              (forall j', q :: 0 <= j' < j && 0 <= q <= |lines[j']| ==> NoMatchAt(lines[j'], q, DateRegex))
    ensures ExtractDate(lines).None? <==>
              forall j, q :: 0 <= j < |lines| && 0 <= q <= |lines[j]| ==> NoMatchAt(lines[j], q, DateRegex)
  {
    var r := DateLineFrom(lines, 0);
    if r.Some? {
      var j := r.value;
      FoundDateShape(lines[j]);
      SpanFromSpec(lines[j], 0, DateRegex);
      DateMatchLongest(lines[j]);
      forall j', q | 0 <= j' < j && 0 <= q <= |lines[j']| ensures NoMatchAt(lines[j'], q, DateRegex) {
        SpanFromSpec(lines[j'], 0, DateRegex);
      }
      var m := SpanFrom(lines[j], 0, DateRegex).value;
      assert NoMatchAt(lines[j], m.start, DateRegex) == false by {
        assert AnySpans(lines[j], m.start, m.end, DateRegex);
      }
    } else {
      forall j, q | 0 <= j < |lines| && 0 <= q <= |lines[j]| ensures NoMatchAt(lines[j], q, DateRegex) {
        SpanFromSpec(lines[j], 0, DateRegex);
      }
    }
  }
}
