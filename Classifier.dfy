/**
 * How the image picker's callback turns the classifier's textual result into
 * a diagnosis label: it takes the text strictly between the last `[` and the
 * first `]`, splits it on `,`, picks the first piece that is greatest under
 * STRING comparison, and maps that piece's index into the label list.
 */
module Classifier {
  import opened Optional
  import opened Strings

  /** The labels, in the classifier's output order. */
  const Labels: seq<string> := ["Benign", "Malignant"]

  /**
   * The slicing does not trap: there is a `[` and a `]`, and at least one
   * character lies between the last `[` and the first `]`.
   */
  predicate WellBracketed(s: string) {
    var open, close := LastIndexOf(s, '['), FirstIndexOf(s, ']');
    open.Some? && close.Some? && open.value + 2 <= close.value
  }

  /**
   * Without reference to the index search: the slicing does not trap exactly
   * when both brackets occur and every `[` lies at least two positions before
   * every `]`.
   */
  lemma WellBracketedExactly(s: string)
    ensures WellBracketed(s) <==>
      && '[' in s && ']' in s
      && forall i, j :: 0 <= i < |s| && 0 <= j < |s| && s[i] == '[' && s[j] == ']' ==> i + 2 <= j
  {
    var open, close := LastIndexOf(s, '['), FirstIndexOf(s, ']');
    if open.Some? && close.Some? {
      NotInSuffix(s, '[', open.value + 1);
      NotInPrefix(s, ']', close.value);
    }
  }

  /** The score text: the characters strictly between the last `[` and the first `]`. */
  function ScoreText(s: string): (r: string)
    requires WellBracketed(s)
    ensures |r| > 0 && '[' !in r && ']' !in r
  {
    var open, close := LastIndexOf(s, '[').value, FirstIndexOf(s, ']').value;
    assert forall i :: open < i < close ==> s[i] != '[' && s[i] != ']' by {
      NotInSuffix(s, '[', open + 1);
      NotInPrefix(s, ']', close);
    }
    s[open + 1..close]
  }

  /**
   * Wrapping a bracket-free text in `[` … `]` and putting it in any context
   * without a `]` before it or a `[` after it gives that text back.
   */
  lemma ScoreTextOf(before: string, body: string, after: string)
    requires |body| > 0 && '[' !in body && ']' !in body
    requires ']' !in before && '[' !in after
    ensures WellBracketed(before + "[" + body + "]" + after)
    ensures ScoreText(before + "[" + body + "]" + after) == body
  {
    var s := before + "[" + body + "]" + after;
    var open, close := |before|, |before| + 1 + |body|;
    assert s[open] == '[' && s[close] == ']';
    assert s[open + 1..] == body + "]" + after;
    assert s[..close] == before + "[" + body;
    LastIndexAt(s, '[', open);
    FirstIndexAt(s, ']', close);
    assert s[open + 1..close] == body;
  }

  /**
   * Swift's `split(separator: ",")` with its defaults: the maximal runs of
   * characters other than `,`, empty runs dropped. Spaces stay in the pieces.
   */
  function Split(s: string): (pieces: seq<string>)
    ensures forall p :: p in pieces ==> |p| > 0 && ',' !in p
  {
    SplitFrom(s, "")
  }

  /** The scan behind `Split`: `run` is the piece read so far. */
  function SplitFrom(s: string, run: string): (pieces: seq<string>)
    requires ',' !in run
    ensures forall p :: p in pieces ==> |p| > 0 && ',' !in p
    decreases |s|
  {
    if |s| == 0 then Flush(run)
    else if s[0] == ',' then Flush(run) + SplitFrom(s[1..], "")
    else SplitFrom(s[1..], run + [s[0]])
  }

  /** The finished run, unless it is empty. */
  function Flush(run: string): seq<string> {
    if run == [] then [] else [run]
  }

  /** Joins pieces with `,` between them. */
  function Join(pieces: seq<string>): string {
    if |pieces| == 0 then ""
    else if |pieces| == 1 then pieces[0]
    else pieces[0] + "," + Join(pieces[1..])
  }

  /** Reading comma-free text only extends the current run. */
  lemma {:induction false} SplitFromCommaFree(t: string, rest: string, run: string)
    requires ',' !in t && ',' !in run
    ensures SplitFrom(t + rest, run) == SplitFrom(rest, run + t)
    decreases |t|
  {
    if |t| > 0 {
      assert t[0] in t;
      assert (t + rest)[0] == t[0] && (t + rest)[1..] == t[1..] + rest;
      assert forall c :: c in t[1..] ==> c in t;
      SplitFromCommaFree(t[1..], rest, run + [t[0]]);
      assert run + [t[0]] + t[1..] == run + t;
    } else {
      assert t + rest == rest && run + t == run;
    }
  }

  /** Splitting comma-joined non-empty comma-free pieces gives the pieces back. */
  lemma {:induction false} SplitJoin(pieces: seq<string>)
    requires forall p :: p in pieces ==> |p| > 0 && ',' !in p
    ensures Split(Join(pieces)) == pieces
    decreases |pieces|
  {
    if |pieces| == 1 {
      assert pieces[0] in pieces;
      SplitFromCommaFree(pieces[0], "", "");
      assert pieces[0] + "" == pieces[0] && "" + pieces[0] == pieces[0];
    } else if |pieces| > 1 {
      assert pieces[0] in pieces;
      assert forall p :: p in pieces[1..] ==> p in pieces;
      var rest := Join(pieces[1..]);
      assert Join(pieces) == pieces[0] + ("," + rest);
      SplitFromCommaFree(pieces[0], "," + rest, "");
      assert "" + pieces[0] == pieces[0];
      assert ("," + rest)[1..] == rest;
      SplitJoin(pieces[1..]);
      assert pieces == [pieces[0]] + pieces[1..];
    }
  }

  /** Reading the first character of `x + rest` is reading the first character of `x`. */
  lemma SplitFromUnfold(x: string, rest: string, run: string)
    requires ',' !in run && |x| > 0
    ensures SplitFrom(x + rest, run) ==
      if x[0] == ',' then Flush(run) + SplitFrom(x[1..] + rest, "") else SplitFrom(x[1..] + rest, run + [x[0]])
  {
    assert (x + rest)[0] == x[0] && (x + rest)[1..] == x[1..] + rest;
  }

  /** The scan of `a , b` is the scan of `a` followed by a fresh scan of `b`. */
  lemma {:induction false} SplitFromComma(a: string, b: string, run: string)
    requires ',' !in run
    ensures SplitFrom(a + ("," + b), run) == SplitFrom(a, run) + SplitFrom(b, "")
    decreases |a|
  {
    if |a| == 0 {
      assert a + ("," + b) == "," + b && ("," + b)[1..] == b;
    } else {
      SplitFromUnfold(a, "," + b, run);
      if a[0] == ',' {
        SplitFromComma(a[1..], b, "");
        assert SplitFrom(a, run) == Flush(run) + SplitFrom(a[1..], "");
      } else {
        SplitFromComma(a[1..], b, run + [a[0]]);
      }
    }
  }

  /** Splitting at a comma: the pieces of `a , b` are the pieces of `a` followed by the pieces of `b`. */
  lemma SplitAtComma(a: string, b: string)
    ensures Split(a + ("," + b)) == Split(a) + Split(b)
  {
    SplitFromComma(a, b, "");
  }

  /** Text without a comma is a single piece, or no piece when it is empty. */
  lemma SplitCommaFree(t: string)
    requires ',' !in t
    ensures Split(t) == if t == "" then [] else [t]
  {
    SplitFromCommaFree(t, "", "");
    assert t + "" == t && "" + t == t;
  }

  /** An empty run before a leading comma gives no piece. */
  lemma LeadingCommaDropped(t: string)
    ensures Split("," + t) == Split(t)
  {
    SplitAtComma("", t);
    SplitCommaFree("");
    assert "" + ("," + t) == "," + t;
  }

  /** The empty run between two adjacent commas gives no piece. */
  lemma DoubledCommaDropped(a: string, b: string)
    ensures Split(a + ("," + ("," + b))) == Split(a) + Split(b)
  {
    SplitAtComma(a, "," + b);
    LeadingCommaDropped(b);
  }

  /** The text without its commas. */
  function WithoutCommas(s: string): string {
    if |s| == 0 then "" else (if s[0] == ',' then "" else [s[0]]) + WithoutCommas(s[1..])
  }

  function Concat(pieces: seq<string>): string {
    if |pieces| == 0 then "" else pieces[0] + Concat(pieces[1..])
  }

  lemma {:induction false} ConcatAppend(a: seq<string>, b: seq<string>)
    ensures Concat(a + b) == Concat(a) + Concat(b)
    decreases |a|
  {
    if |a| == 0 {
      assert a + b == b;
    } else {
      assert (a + b)[0] == a[0] && (a + b)[1..] == a[1..] + b;
      ConcatAppend(a[1..], b);
    }
  }

  /** The pieces read from `s` with run `run`, laid end to end, are the run followed by `s` without its commas. */
  lemma {:induction false} SplitFromKeepsText(s: string, run: string)
    requires ',' !in run
    ensures Concat(SplitFrom(s, run)) == run + WithoutCommas(s)
    decreases |s|
  {
    if |s| == 0 {
      assert Concat(Flush(run)) == run;
    } else if s[0] == ',' {
      SplitFromKeepsText(s[1..], "");
      ConcatAppend(Flush(run), SplitFrom(s[1..], ""));
      assert Concat(Flush(run)) == run;
    } else {
      SplitFromKeepsText(s[1..], run + [s[0]]);
      assert run + [s[0]] + WithoutCommas(s[1..]) == run + ([s[0]] + WithoutCommas(s[1..]));
    }
  }

  /** Splitting loses nothing but the commas: the pieces, laid end to end, are the text without its commas. */
  lemma SplitKeepsText(s: string)
    ensures Concat(Split(s)) == WithoutCommas(s)
  {
    SplitFromKeepsText(s, "");
  }

  /**
   * `i` is the first index of a greatest piece: no piece is greater than
   * `pieces[i]`, and every piece before it is smaller.
   */
  predicate IsFirstGreatest(pieces: seq<string>, i: nat) {
    && i < |pieces|
    && (forall j :: 0 <= j < |pieces| ==> !Less(pieces[i], pieces[j]))
    && (forall j :: 0 <= j < i ==> Less(pieces[j], pieces[i]))
  }

  /**
   * `zip(indices, pieces).max(by: { $0.1 < $1.1 })?.0 ?? 0`: the running best
   * is replaced only by a strictly greater piece, so on ties the earlier index
   * stays; no pieces gives index 0.
   */
  function PredictedIndex(pieces: seq<string>): (i: nat)
    ensures pieces == [] ==> i == 0
    ensures pieces != [] ==> IsFirstGreatest(pieces, i)
  {
    if pieces == [] then 0
    else
      LessIrreflexive(pieces[0]);
      GreatestFrom(pieces, 0, 1)
  }

  /** The fold behind `max(by:)`: `best` is the first greatest among `pieces[..next]`. */
  function GreatestFrom(pieces: seq<string>, best: nat, next: nat): (i: nat)
    requires best < next <= |pieces|
    requires IsFirstGreatest(pieces[..next], best)
    ensures IsFirstGreatest(pieces, i)
    decreases |pieces| - next
  {
    if next == |pieces| then
      assert pieces[..next] == pieces;
      best
    else if Less(pieces[best], pieces[next]) then
      GreaterTakesOver(pieces, best, next);
      GreatestFrom(pieces, next, next + 1)
    else
      EqualOrSmallerKeeps(pieces, best, next);
      GreatestFrom(pieces, best, next + 1)
  }

  lemma GreaterTakesOver(pieces: seq<string>, best: nat, next: nat)
    requires best < next < |pieces|
    requires IsFirstGreatest(pieces[..next], best)
    requires Less(pieces[best], pieces[next])
    ensures IsFirstGreatest(pieces[..next + 1], next)
  {
    var p := pieces[..next + 1];
    forall j | 0 <= j < next ensures Less(p[j], p[next]) && !Less(p[next], p[j]) {
      assert pieces[..next][j] == p[j];
      LessTotal(p[j], pieces[best]);
      if p[j] != pieces[best] {
        LessTransitive(p[j], pieces[best], pieces[next]);
      }
      LessTotal(p[j], p[next]);
    }
    LessIrreflexive(p[next]);
  }

  lemma EqualOrSmallerKeeps(pieces: seq<string>, best: nat, next: nat)
    requires best < next < |pieces|
    requires IsFirstGreatest(pieces[..next], best)
    requires !Less(pieces[best], pieces[next])
    ensures IsFirstGreatest(pieces[..next + 1], best)
  {
    var p := pieces[..next + 1];
    forall j | 0 <= j < next ensures p[j] == pieces[..next][j] {
    }
  }

  /**
   * The index the callback computes from a result description: `None` stands
   * for a missing description, which optional chaining turns into empty text,
   * no pieces and index 0.
   */
  function ResultIndex(description: Option<string>): (i: nat)
    requires description.Some? ==> WellBracketed(description.value)
    ensures description.None? ==> i == 0
    ensures description.Some? && Split(ScoreText(description.value)) == [] ==> i == 0
    ensures description.Some? && Split(ScoreText(description.value)) != [] ==>
      IsFirstGreatest(Split(ScoreText(description.value)), i)
  {
    match description
    case None => 0
    case Some(s) => PredictedIndex(Split(ScoreText(s)))
  }

  /** `labels[i]` does not trap. */
  predicate Classifiable(description: Option<string>) {
    (description.Some? ==> WellBracketed(description.value)) && ResultIndex(description) < |Labels|
  }

  /** The label stored as the prediction. */
  function Prediction(description: Option<string>): (diagnosis: string)
    requires Classifiable(description)
    ensures diagnosis == "Benign" || diagnosis == "Malignant"
    ensures diagnosis == "Malignant" <==> ResultIndex(description) == 1
  {
    Labels[ResultIndex(description)]
  }

  /** At most two pieces always give an index inside the label list. */
  lemma AtMostTwoPiecesClassify(s: string)
    requires WellBracketed(s) && |Split(ScoreText(s))| <= 2
    ensures Classifiable(Some(s))
  {
  }

  /** Text with no pieces (only commas) predicts "Benign". */
  lemma NoPiecesIsBenign(s: string)
    requires WellBracketed(s)
    requires forall i :: 0 <= i < |ScoreText(s)| ==> ScoreText(s)[i] == ','
    ensures Classifiable(Some(s)) && Prediction(Some(s)) == "Benign"
  {
    var t := ScoreText(s);
    SplitKeepsText(t);
    CommasOnly(t);
    ConcatLength(Split(t));
  }

  /** Non-empty pieces laid end to end are at least as long as there are pieces. */
  lemma {:induction false} ConcatLength(pieces: seq<string>)
    requires forall p :: p in pieces ==> |p| > 0
    ensures |Concat(pieces)| >= |pieces|
    decreases |pieces|
  {
    if |pieces| > 0 {
      assert pieces[0] in pieces;
      assert forall p :: p in pieces[1..] ==> p in pieces;
      ConcatLength(pieces[1..]);
    }
  }

  lemma {:induction false} CommasOnly(s: string)
    requires forall i :: 0 <= i < |s| ==> s[i] == ','
    ensures WithoutCommas(s) == ""
    decreases |s|
  {
    if |s| > 0 {
      CommasOnly(s[1..]);
    }
  }

  /**
   * Comparison is by string, not by number: with the scores "0.1" and " 0.9"
   * the space sorts before every digit, so the first piece wins and the
   * prediction is "Benign".
   */
  lemma StringComparisonExample()
    ensures Classifiable(Some("[0.1, 0.9]")) && Prediction(Some("[0.1, 0.9]")) == "Benign"
  {
    assert "[0.1, 0.9]" == "" + "[" + "0.1, 0.9" + "]" + "";
    ScoreTextOf("", "0.1, 0.9", "");
    SplitExample();
    var p := ["0.1", " 0.9"];
    assert !Less(p[0], p[1]);
    assert PredictedIndex(p) == 0;
  }

  lemma SplitExample()
    ensures Split("0.1, 0.9") == ["0.1", " 0.9"]
  {
    var a, b := "0.1", " 0.9";
    assert Join([a, b]) == "0.1, 0.9";
    SplitJoin([a, b]);
  }
}
