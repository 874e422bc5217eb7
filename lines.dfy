/**
 * Line normalization of `parseReceiptText` (lib/ocr.ts:78): the transcript is
 * split on line breaks, every piece is trimmed, and empty pieces are dropped.
 * Every extractor works on the resulting lines only.
 */
module Lines {
  import opened Text

  /** A normalized line: non-empty, already trimmed, without a line break. */
  predicate IsCleanLine(line: string) {
    line != "" && Trim(line) == line && '\n' !in line
  }

  /** Trim every piece and keep the non-empty ones, in their original order. */
  function CleanPieces(pieces: seq<string>): (lines: seq<string>)
    requires forall k :: 0 <= k < |pieces| ==> '\n' !in pieces[k]
    ensures |lines| <= |pieces|
    ensures forall k :: 0 <= k < |lines| ==> IsCleanLine(lines[k])
  {
    if |pieces| == 0 then []
    else
      var t := Trim(pieces[0]);
      TrimIdempotent(pieces[0]);
      TrimKeepsOut(pieces[0], '\n');
      (if |t| > 0 then [t] else []) + CleanPieces(pieces[1..])
  }

  /** `text.split('\n').map(line => line.trim()).filter(line => line.length > 0)`. */
  function Normalize(text: string): (lines: seq<string>)
    ensures forall k :: 0 <= k < |lines| ==> IsCleanLine(lines[k])
  {
    CleanPieces(Split(text))
  }

  /** Cleaning distributes over concatenation of piece lists: order is kept. */
  lemma {:induction false} CleanPiecesAppend(a: seq<string>, b: seq<string>)
    requires forall k :: 0 <= k < |a| ==> '\n' !in a[k]
    requires forall k :: 0 <= k < |b| ==> '\n' !in b[k]
    ensures CleanPieces(a + b) == CleanPieces(a) + CleanPieces(b)
  {
    if |a| > 0 {
      assert (a + b)[0] == a[0];
      assert (a + b)[1..] == a[1..] + b;
      CleanPiecesAppend(a[1..], b);
      var t := Trim(a[0]);
      var head: seq<string> := if |t| > 0 then [t] else [];
      calc {
        CleanPieces(a + b);
        head + CleanPieces(a[1..] + b);
        head + (CleanPieces(a[1..]) + CleanPieces(b));
        (head + CleanPieces(a[1..])) + CleanPieces(b);
        CleanPieces(a) + CleanPieces(b);
      }
    } else {
      assert a + b == b;
    }
  }

  /**
   * The lines of two transcripts joined by a line break are the lines of the
   * first followed by the lines of the second.
   */
  lemma NormalizeConcat(t1: string, t2: string)
    ensures Normalize(t1 + "\n" + t2) == Normalize(t1) + Normalize(t2)
  {
    SplitConcat(t1, t2);
    CleanPiecesAppend(Split(t1), Split(t2));
  }

  /** A single piece of text is one line (its trimmed form) or none. */
  lemma NormalizeSingleLine(t: string)
    requires '\n' !in t
    ensures Normalize(t) == (if Trim(t) == "" then [] else [Trim(t)])
  {
    SplitSingle(t);
  }

  /** A transcript made only of white space has no lines. */
  lemma {:induction false} NormalizeBlank(t: string)
    requires forall i :: 0 <= i < |t| ==> IsSpace(t[i])
    ensures Normalize(t) == []
  {
    if |t| > 0 {
      var pieces := Split(t);
      BlankPieces(t);
      CleanBlank(pieces);
    }
  }

  /** The pieces of a blank text are blank. */
  lemma {:induction false} BlankPieces(t: string)
    requires forall i :: 0 <= i < |t| ==> IsSpace(t[i])
    ensures forall k, i :: 0 <= k < |Split(t)| && 0 <= i < |Split(t)[k]| ==> IsSpace(Split(t)[k][i])
  {
    if |t| > 0 {
      BlankPieces(t[1..]);
      var rest := Split(t[1..]);
      if t[0] != '\n' {
        forall k, i | 0 <= k < |Split(t)| && 0 <= i < |Split(t)[k]| ensures IsSpace(Split(t)[k][i]) {
          if k == 0 {
            if i > 0 { assert Split(t)[0][i] == rest[0][i - 1]; }
          } else {
            assert Split(t)[k] == rest[k];
          }
        }
      }
    }
  }

  /** Blank pieces clean away to nothing. */
  lemma {:induction false} CleanBlank(pieces: seq<string>)
    requires forall k :: 0 <= k < |pieces| ==> '\n' !in pieces[k]
    requires forall k, i :: 0 <= k < |pieces| && 0 <= i < |pieces[k]| ==> IsSpace(pieces[k][i])
    ensures CleanPieces(pieces) == []
  {
    if |pieces| > 0 {
      CleanBlank(pieces[1..]);
    }
  }

  /** Cleaning lines that are already clean changes nothing. */
  lemma {:induction false} CleanClean(lines: seq<string>)
    requires forall k :: 0 <= k < |lines| ==> IsCleanLine(lines[k])
    requires forall k :: 0 <= k < |lines| ==> '\n' !in lines[k]
    ensures CleanPieces(lines) == lines
  {
    if |lines| > 0 {
      CleanClean(lines[1..]);
    }
  }

  /**
   * Normalization is idempotent: writing the lines back out, one per line,
   * and normalizing again yields the same lines.
   */
  lemma NormalizeIdempotent(text: string)
    ensures Normalize(Join(Normalize(text))) == Normalize(text)
  {
    var lines := Normalize(text);
    if |lines| == 0 {
      assert Split("") == [""];
    } else {
      SplitJoin(lines);
      CleanClean(lines);
    }
  }
}
