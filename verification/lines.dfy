/** Preparing an uploaded file for a typing job (app.py, `start_typing`): the text is split
    on '\n', each piece is stripped, and the pieces that strip to nothing are dropped. */
module Lines {
  import opened Text

  /** The separator the upload is split on. */
  const Newline: char := '\n'

  /** The stripped form of each piece, keeping only the non-empty ones, in order. */
  function KeepNonBlank(pieces: seq<string>): (lines: seq<string>)
    ensures |lines| <= |pieces|
    ensures forall k :: 0 <= k < |lines| ==> lines[k] != [] && IsStripped(lines[k])
  {
    if |pieces| == 0 then []
    else
      var head := Strip(pieces[0]);
      (if head == [] then [] else [head]) + KeepNonBlank(pieces[1..])
  }

  /** The list of lines a typing job sends, built from the uploaded text. */
  function PrepareLines(content: string): (lines: seq<string>)
    ensures forall k :: 0 <= k < |lines| ==> lines[k] != [] && IsStripped(lines[k])
  {
    KeepNonBlank(Split(content, Newline))
  }

  /** Filtering distributes over concatenation, so the kept lines stay in piece order. */
  lemma {:induction false} KeepNonBlankAppend(a: seq<string>, b: seq<string>)
    ensures KeepNonBlank(a + b) == KeepNonBlank(a) + KeepNonBlank(b)
    decreases |a|
  {
    if |a| == 0 {
      assert a + b == b;
    } else {
      assert (a + b)[0] == a[0];
      assert (a + b)[1..] == a[1..] + b;
      KeepNonBlankAppend(a[1..], b);
    }
  }

  /** Some piece strips to `l`. */
  predicate StripsFromSome(pieces: seq<string>, l: string) {
    exists k :: 0 <= k < |pieces| && Strip(pieces[k]) == l
  }

  /** A line is kept exactly when some piece strips to it and it is not empty. */
  lemma {:induction false} KeepNonBlankMembers(pieces: seq<string>, l: string)
    ensures l in KeepNonBlank(pieces) <==> l != [] && StripsFromSome(pieces, l)
    decreases |pieces|
  {
    if |pieces| > 0 {
      KeepNonBlankMembers(pieces[1..], l);
      if exists k :: 0 <= k < |pieces| && Strip(pieces[k]) == l {
        var k :| 0 <= k < |pieces| && Strip(pieces[k]) == l;
        if k > 0 {
          assert Strip(pieces[1..][k - 1]) == l;
        }
      }
      if exists k :: 0 <= k < |pieces[1..]| && Strip(pieces[1..][k]) == l {
        var k :| 0 <= k < |pieces[1..]| && Strip(pieces[1..][k]) == l;
        assert Strip(pieces[k + 1]) == l;
      }
    }
  }

  /** A stripped piece of a separator-free string is separator-free. */
  lemma StripKeepsOut(s: string, c: char)
    requires c !in s
    ensures c !in Strip(s)
  {
    var i, j :| 0 <= i <= j <= |s| && Strip(s) == s[i..j];
  }

  /** Prepared lines are exactly the non-empty stripped pieces of the text split on '\n':
      each kept line comes from some piece, and every piece that strips to something
      non-empty is kept. */
  lemma PreparedLinesAreStrippedPieces(content: string, l: string)
    ensures l in PrepareLines(content) <==> l != [] && StripsFromSome(Split(content, Newline), l)
  {
    var pieces := Split(content, Newline);
    assert PrepareLines(content) == KeepNonBlank(pieces);
    KeepNonBlankMembers(pieces, l);
  }

  /** No prepared line contains a newline, begins or ends with whitespace, or is empty. */
  lemma PreparedLinesAreClean(content: string)
    ensures forall k :: 0 <= k < |PrepareLines(content)| ==>
      var l := PrepareLines(content)[k]; l != [] && IsStripped(l) && Newline !in l
  {
    var lines := PrepareLines(content);
    var pieces := Split(content, Newline);
    forall k | 0 <= k < |lines|
      ensures Newline !in lines[k]
    {
      KeepNonBlankMembers(pieces, lines[k]);
      var m :| 0 <= m < |pieces| && Strip(pieces[m]) == lines[k];
      StripKeepsOut(pieces[m], Newline);
    }
  }

  /** Text without a newline gives its stripped self as the only line, or nothing when it is
      blank. */
  lemma PrepareOneLine(s: string)
    requires Newline !in s
    ensures PrepareLines(s) == if Strip(s) == [] then [] else [Strip(s)]
  {
    assert Split(s, Newline) == [s];
  }

  /** The lines of two texts joined by a newline are the first text's lines followed by the
      second text's lines: input order is kept. */
  lemma {:induction false} PrepareAppend(a: string, b: string)
    ensures PrepareLines(a + [Newline] + b) == PrepareLines(a) + PrepareLines(b)
  {
    SplitAppend(a, b, Newline);
    KeepNonBlankAppend(Split(a, Newline), Split(b, Newline));
  }
}
