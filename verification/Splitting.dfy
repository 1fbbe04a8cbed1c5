/** Splitting text at a character, joining it again, and reading plain numbers. */
module Splitting {
  import opened Outcomes

  /** The pieces between the occurrences of `c`; never empty. */
  function Split(text: string, c: char): (r: seq<string>)
    ensures |r| >= 1 && forall i :: 0 <= i < |r| ==> c !in r[i]
  {
    if text == [] then [[]]
    else
      var rest := Split(text[1..], c);
      if text[0] == c then [[]] + rest else [[text[0]] + rest[0]] + rest[1..]
  }

  function Join(parts: seq<string>, c: char): string {
    if parts == [] then [] else if |parts| == 1 then parts[0] else parts[0] + [c] + Join(parts[1..], c)
  }

  /** Cuts the text at the first `c`, which belongs to neither half. */
  function SplitOnce(text: string, c: char): (r: Option<(string, string)>)
    ensures r.None? <==> c !in text
    ensures r.Some? ==> text == r.value.0 + [c] + r.value.1 && c !in r.value.0
  {
    if text == [] then None
    else if text[0] == c then Some(([], text[1..]))
    else
      var rest := SplitOnce(text[1..], c);
      assert text == [text[0]] + text[1..];
      if rest.None? then None else Some(([text[0]] + rest.value.0, rest.value.1))
  }

  lemma {:induction false} SplitPrefixed(prefix: string, text: string, c: char)
    requires c !in prefix
    ensures Split(prefix + text, c) == [prefix + Split(text, c)[0]] + Split(text, c)[1..]
  {
    var all, rest := prefix + text, Split(text, c);
    if prefix == [] {
      assert all == text && prefix + rest[0] == rest[0];
    } else {
      SplitPrefixed(prefix[1..], text, c);
      assert all[1..] == prefix[1..] + text;
      assert [prefix[0]] + (prefix[1..] + rest[0]) == prefix + rest[0];
    }
  }

  /** Splitting what was joined gives the parts back, when no part holds the separator. */
  lemma {:induction false} JoinedSplits(parts: seq<string>, c: char)
    requires |parts| >= 1 && forall i :: 0 <= i < |parts| ==> c !in parts[i]
    ensures Split(Join(parts, c), c) == parts
  {
    if |parts| == 1 {
      assert parts[0] + [] == parts[0];
      SplitPrefixed(parts[0], [], c);
    } else {
      var tail := Join(parts[1..], c);
      JoinedSplits(parts[1..], c);
      SplitPrefixed(parts[0], [c] + tail, c);
      assert ([c] + tail)[1..] == tail;
      assert parts[0] + ([c] + tail) == parts[0] + [c] + tail;
      assert [[]] + Split(tail, c) == Split([c] + tail, c);
      assert parts[0] + [] == parts[0];
      assert parts == [parts[0]] + parts[1..];
    }
  }

  lemma {:induction false} SplitOnceFinds(before: string, c: char, after: string)
    requires c !in before
    ensures SplitOnce(before + [c] + after, c) == Some((before, after))
  {
    var all := before + [c] + after;
    if before != [] {
      SplitOnceFinds(before[1..], c, after);
      assert all[1..] == before[1..] + [c] + after;
      assert [before[0]] + before[1..] == before;
    } else {
      assert all[1..] == after;
    }
  }

  /** Characters of the pieces come from the text. */
  lemma {:induction false} PiecesAreOfText(text: string, c: char, other: char)
    requires other !in text
    ensures forall i :: 0 <= i < |Split(text, c)| ==> other !in Split(text, c)[i]
  {
    if text != [] {
      PiecesAreOfText(text[1..], c, other);
    }
  }

  lemma {:induction false} JoinAvoids(parts: seq<string>, c: char, other: char)
    requires other != c && forall i :: 0 <= i < |parts| ==> other !in parts[i]
    ensures other !in Join(parts, c)
  {
    if |parts| > 1 {
      JoinAvoids(parts[1..], c, other);
    }
  }

  // ----- numbers -----

  predicate IsDigit(c: char) {
    '0' <= c <= '9'
  }

  /** One or more digits and nothing else. */
  predicate IsNumber(text: string) {
    text != [] && forall i :: 0 <= i < |text| ==> IsDigit(text[i])
  }

  function DigitValue(c: char): nat
    requires IsDigit(c)
  {
    c as int - '0' as int
  }

  function Digit(n: nat): (c: char)
    requires n < 10
    ensures IsDigit(c) && DigitValue(c) == n
  {
    ('0' as int + n) as char
  }

  function Value(text: string): nat
    requires forall i :: 0 <= i < |text| ==> IsDigit(text[i])
  {
    if text == [] then 0 else Value(text[..|text| - 1]) * 10 + DigitValue(text[|text| - 1])
  }

  /** The number in decimal. */
  function Decimal(n: nat): (r: string)
    ensures IsNumber(r) && Value(r) == n
  {
    if n < 10 then
      assert [Digit(n)][..0] == [] && Value([]) == 0;
      [Digit(n)]
    else
      var front := Decimal(n / 10);
      assert (front + [Digit(n % 10)])[..|front|] == front;
      front + [Digit(n % 10)]
  }
}
