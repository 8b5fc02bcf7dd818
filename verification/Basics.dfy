/** What several modules need. */
module Basics {
  datatype Option<T> = None | Some(value: T)

  lemma SubsetSize<T>(a: set<T>, b: set<T>)
    requires a <= b
    ensures |a| <= |b|
  {
    assert b == a + (b - a);
  }

  /** The length of what stands in front of a character. */
  function Span(text: string, stop: char): (n: nat)
    ensures n <= |text|
  {
    if text == "" || text[0] == stop then 0 else 1 + Span(text[1..], stop)
  }

  lemma {:induction false} SpanOf(word: string, stop: char, rest: string)
    requires stop !in word
    requires rest != "" && rest[0] == stop
    ensures Span(word + rest, stop) == |word|
    decreases |word|
  {
    if word == "" {
      assert word + rest == rest;
    } else {
      assert (word + rest)[1..] == word[1..] + rest;
      SpanOf(word[1..], stop, rest);
    }
  }

  lemma {:induction false} SpanStops(text: string, stop: char)
    ensures stop !in text[..Span(text, stop)]
    ensures Span(text, stop) < |text| ==> text[Span(text, stop)] == stop
  {
    if text != "" && text[0] != stop {
      SpanStops(text[1..], stop);
      assert text[..Span(text, stop)] == [text[0]] + text[1..][..Span(text[1..], stop)];
    }
  }

  lemma {:induction false} SpanBefore(text: string, i: nat, stop: char)
    requires i < |text| && text[i] == stop
    ensures Span(text, stop) <= i
  {
    if i > 0 && text[0] != stop {
      SpanBefore(text[1..], i - 1, stop);
    }
  }
}
