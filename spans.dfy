/** Styled text: the `SpannableStringBuilder` the list and score renderers build. */
module Spans {

  /** A style applied to the characters `start` (inclusive) to `end` (exclusive). */
  datatype Span<S> = Span(style: S, start: int, end: int)

  /** Text with the spans set on it, in the order they were set. */
  datatype Styled<S> = Styled(text: string, spans: seq<Span<S>>)

  /** Every span is a range `0 <= start <= end <= len`. */
  predicate SpansWithin<S>(spans: seq<Span<S>>, len: int)
  {
    forall i :: 0 <= i < |spans| ==> 0 <= spans[i].start <= spans[i].end <= len
  }
}
