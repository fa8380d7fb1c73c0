/** The string operations the source relies on: `split`, `toLowerCase`, `trim`
    and `indexOf(...) >= 0`, over UTF-16-free `seq<char>` text. */
module Text {

  /** `text.split(sep)`: never empty, and one piece more than there are separators. */
  function Split(text: string, sep: char): (pieces: seq<string>)
    ensures |pieces| > 0
    ensures forall piece :: piece in pieces ==> sep !in piece
  {
    if text == "" then [""]
    else
      var rest := Split(text[1..], sep);
      if text[0] == sep then [""] + rest
      else [[text[0]] + rest[0]] + rest[1..]
  }

  /** `pieces.join(sep)`. */
  function Join(pieces: seq<string>, sep: char): string
  {
    if pieces == [] then ""
    else if |pieces| == 1 then pieces[0]
    else pieces[0] + [sep] + Join(pieces[1..], sep)
  }

  /** Splitting loses nothing: the pieces joined again are the text. */
  lemma {:induction false} JoinSplit(text: string, sep: char)
    ensures Join(Split(text, sep), sep) == text
  {
    if text != "" {
      JoinSplit(text[1..], sep);
      var rest := Split(text[1..], sep);
      if text[0] == sep {
        assert ([""] + rest)[1..] == rest;
      } else if |rest| > 1 {
        assert ([[text[0]] + rest[0]] + rest[1..])[1..] == rest[1..];
      }
    }
  }

  lemma {:induction false} SplitWhole(text: string, sep: char)
    requires sep !in text
    ensures Split(text, sep) == [text]
  {
    if text != "" {
      SplitWhole(text[1..], sep);
      assert [text[0]] + text[1..] == text;
    }
  }

  /** A separator cuts the text into the pieces of what stands on either side. */
  lemma {:induction false} SplitConcat(left: string, sep: char, right: string)
    ensures Split(left + [sep] + right, sep) == Split(left, sep) + Split(right, sep)
  {
    var text := left + [sep] + right;
    if left == "" {
      assert text[1..] == right;
    } else {
      assert text[1..] == left[1..] + [sep] + right;
      SplitConcat(left[1..], sep, right);
      SplitCons(left, sep);
      SplitCons(text, sep);
      PrependMiddle(left[0], sep, Split(left[1..], sep), Split(right, sep));
    }
  }

  /** What one more character in front does to the pieces. */
  function Prepend(c: char, sep: char, pieces: seq<string>): seq<string>
    requires |pieces| > 0
  {
    if c == sep then [""] + pieces else [[c] + pieces[0]] + pieces[1..]
  }

  lemma SplitCons(text: string, sep: char)
    requires text != ""
    ensures Split(text, sep) == Prepend(text[0], sep, Split(text[1..], sep))
  {
  }

  lemma PrependMiddle(c: char, sep: char, left: seq<string>, right: seq<string>)
    requires |left| > 0
    ensures Prepend(c, sep, left + right) == Prepend(c, sep, left) + right
  {
    assert (left + right)[1..] == left[1..] + right;
  }

  /** And pieces without a separator, joined, come apart again. */
  lemma {:induction false} SplitJoin(pieces: seq<string>, sep: char)
    requires pieces != [] && forall piece :: piece in pieces ==> sep !in piece
    ensures Split(Join(pieces, sep), sep) == pieces
  {
    SplitWhole(pieces[0], sep);
    if |pieces| > 1 {
      SplitJoin(pieces[1..], sep);
      SplitConcat(pieces[0], sep, Join(pieces[1..], sep));
      assert pieces == [pieces[0]] + pieces[1..];
    }
  }

  predicate StartsWith(text: string, prefix: string)
  {
    |prefix| <= |text| && text[..|prefix|] == prefix
  }

  predicate FoundAt(text: string, needle: string, i: nat)
  {
    i + |needle| <= |text| && text[i..i + |needle|] == needle
  }

  /** `text.indexOf(needle) >= 0`. */
  predicate Contains(text: string, needle: string)
  {
    exists i: nat :: i <= |text| && FoundAt(text, needle, i)
  }

  lemma ContainsPrefix(head: string, tail: string, needle: string)
    requires Contains(head, needle)
    ensures Contains(head + tail, needle)
  {
    var i: nat :| i <= |head| && FoundAt(head, needle, i);
    assert (head + tail)[i..i + |needle|] == head[i..i + |needle|];
    assert FoundAt(head + tail, needle, i);
  }

  lemma ContainsSuffix(head: string, tail: string, needle: string)
    requires Contains(tail, needle)
    ensures Contains(head + tail, needle)
  {
    var i: nat :| i <= |tail| && FoundAt(tail, needle, i);
    assert (head + tail)[|head| + i..|head| + i + |needle|] == tail[i..i + |needle|];
    assert FoundAt(head + tail, needle, |head| + i);
  }

  /** `toLowerCase()` on the ASCII letters; every other character is kept. */
  function LowerChar(c: char): char
  {
    if 'A' <= c <= 'Z' then (c as int - 'A' as int + 'a' as int) as char else c
  }

  /** Letter by letter. */
  lemma LowerLetter(c: char, k: nat)
    requires k < 26
    ensures LowerChar("ABCDEFGHIJKLMNOPQRSTUVWXYZ"[k]) == "abcdefghijklmnopqrstuvwxyz"[k]
    ensures c !in "ABCDEFGHIJKLMNOPQRSTUVWXYZ" ==> LowerChar(c) == c
  {
  }

  function Lower(text: string): (lower: string)
    ensures |lower| == |text|
    ensures forall i :: 0 <= i < |text| ==> lower[i] == LowerChar(text[i])
  {
    seq(|text|, i requires 0 <= i < |text| => LowerChar(text[i]))
  }

  lemma LowerConcat(a: string, b: string)
    ensures Lower(a + b) == Lower(a) + Lower(b)
  {
  }

  lemma LowerIdempotent(text: string)
    ensures Lower(Lower(text)) == Lower(text)
  {
  }

  /** White space and line ends, as `trim` counts them. */
  predicate IsSpace(c: char)
  {
    || c == ' ' || '\U{0009}' <= c <= '\U{000D}' || c == '\U{00A0}' || c == '\U{1680}'
    || '\U{2000}' <= c <= '\U{200A}' || c == '\U{2028}' || c == '\U{2029}' || c == '\U{202F}' || c == '\U{205F}'
    || c == '\U{3000}' || c == '\U{FEFF}'
  }

  /** `trim()`. */
  function Trim(text: string): (inner: string)
  {
    if text == "" then ""
    else if IsSpace(text[0]) then Trim(text[1..])
    else if IsSpace(text[|text| - 1]) then Trim(text[..|text| - 1])
    else text
  }

  lemma {:induction false} TrimKeeps(text: string)
    ensures forall c :: c in Trim(text) ==> c in text
  {
    if text != "" && IsSpace(text[0]) {
      TrimKeeps(text[1..]);
    } else if text != "" && IsSpace(text[|text| - 1]) {
      TrimKeeps(text[..|text| - 1]);
    }
  }

  /** Only white space goes, from either end, and none is left there. */
  lemma {:induction false} Trimmed(text: string) returns (from: nat, to: nat)
    ensures from <= to <= |text| && Trim(text) == text[from..to]
    ensures forall i :: 0 <= i < from || to <= i < |text| ==> IsSpace(text[i])
    ensures from < to ==> !IsSpace(text[from]) && !IsSpace(text[to - 1])
  {
    from, to := 0, |text|;
    if text != "" && IsSpace(text[0]) {
      from, to := Trimmed(text[1..]);
      from, to := from + 1, to + 1;
      forall i | 0 <= i < from || to <= i < |text| ensures IsSpace(text[i]) {
        assert i > 0 ==> text[i] == text[1..][i - 1];
      }
    } else if text != "" && IsSpace(text[|text| - 1]) {
      from, to := Trimmed(text[..|text| - 1]);
      forall i | 0 <= i < from || to <= i < |text| ensures IsSpace(text[i]) {
        assert i < |text| - 1 ==> text[i] == text[..|text| - 1][i];
      }
    }
  }
}
