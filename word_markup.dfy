/**
 * `BrowseWordsActivity.WordViewBinder.applyWordMarkup`: the small mark-up language
 * in which the word list query describes its rich text.
 *
 * Every character is copied to the output except escape sequences, which are a
 * `.` followed by one more character:
 *   `..` a single dot;  `.c` / `.C` start / stop LANGUAGE CODE formatting;
 *   `.u` / `.U` start / stop UNTRANSLATED WORD formatting;
 *   `.0` the "no translations" text, which is a parameter here;
 * every other escape, and a lone `.` at the very end, produces nothing.
 * Each stop sets a span from the matching start position (0 if there was none) to
 * the current end of the output, and moves that start position to the end.
 */
module WordMarkup {
  import opened Spans

  datatype MarkupStyle = LanguageCodeTag | UntranslatedWord

  /** The builder and the two start positions, as the loop carries them. */
  datatype MarkupState = MarkupState(out: string, spans: seq<Span<MarkupStyle>>,
                                     languageCodeStart: int, untranslatedStart: int)

  const Initial: MarkupState := MarkupState([], [], 0, 0)

  /** The effect of the escape sequence `.` `c`. */
  function Escape(st: MarkupState, c: char, noTranslations: string): MarkupState
  {
    if c == '.' then st.(out := st.out + ['.'])
    else if c == 'c' then st.(languageCodeStart := |st.out|)
    else if c == 'C' then
      st.(spans := st.spans + [Span(LanguageCodeTag, st.languageCodeStart, |st.out|)],
          languageCodeStart := |st.out|)
    else if c == 'u' then st.(untranslatedStart := |st.out|)
    else if c == 'U' then
      st.(spans := st.spans + [Span(UntranslatedWord, st.untranslatedStart, |st.out|)],
          untranslatedStart := |st.out|)
    else if c == '0' then st.(out := st.out + noTranslations)
    else st
  }

  /** The state after reading `s` from `st`. */
  function Run(st: MarkupState, s: string, noTranslations: string): MarkupState
    decreases |s|
  {
    if s == [] then st
    else if s[0] == '.' then
      if |s| == 1 then st else Run(Escape(st, s[1], noTranslations), s[2..], noTranslations)
    else Run(st.(out := st.out + [s[0]]), s[1..], noTranslations)
  }

  /** The start positions and every span lie within the output produced so far. */
  predicate WellFormed(st: MarkupState)
  {
    && 0 <= st.languageCodeStart <= |st.out|
    && 0 <= st.untranslatedStart <= |st.out|
    && SpansWithin(st.spans, |st.out|)
  }

  method ApplyWordMarkup(text: string, noTranslations: string) returns (r: Styled<MarkupStyle>)
    ensures r.text == Run(Initial, text, noTranslations).out
    ensures r.spans == Run(Initial, text, noTranslations).spans
    ensures SpansWithin(r.spans, |r.text|)
    ensures (forall i :: 0 <= i < |text| ==> text[i] != '.') ==> r == Styled(text, [])
  {
    var out: string := [];
    var spans: seq<Span<MarkupStyle>> := [];
    var languageCodeStart := 0;
    var untranslatedStart := 0;

    var textLength := |text|;
    var i := 0;
    while i < textLength
      invariant 0 <= i <= textLength + 1
      invariant var st := MarkupState(out, spans, languageCodeStart, untranslatedStart);
        WellFormed(st) &&
        Run(st, text[if i <= textLength then i else textLength..], noTranslations) == Run(Initial, text, noTranslations)
    {
      ghost var before := MarkupState(out, spans, languageCodeStart, untranslatedStart);
      ghost var rest := text[i..];
      var c := text[i];
      if c == '.' {
        i := i + 1;
        if i < textLength {
          c := text[i];
          assert rest[2..] == text[i + 1..];
          if c == '.' {
            out := out + [c];
          } else if c == 'c' {
            languageCodeStart := |out|;
          } else if c == 'C' {
            spans := spans + [Span(LanguageCodeTag, languageCodeStart, |out|)];
            languageCodeStart := |out|;
          } else if c == 'u' {
            untranslatedStart := |out|;
          } else if c == 'U' {
            spans := spans + [Span(UntranslatedWord, untranslatedStart, |out|)];
            untranslatedStart := |out|;
          } else if c == '0' {
            out := out + noTranslations;
          }
          EscapeWellFormed(before, c, noTranslations);
          assert MarkupState(out, spans, languageCodeStart, untranslatedStart) == Escape(before, c, noTranslations);
        }
      } else {
        out := out + [c];
        assert rest[1..] == text[i + 1..];
      }
      i := i + 1;
    }
    r := Styled(out, spans);
    if forall i :: 0 <= i < |text| ==> text[i] != '.' {
      RunPlain(Initial, text, noTranslations);
    }
  }

  // ---------------------------------------------------------------------------
  // Properties

  lemma EscapeWellFormed(st: MarkupState, c: char, noTranslations: string)
    requires WellFormed(st)
    ensures WellFormed(Escape(st, c, noTranslations))
  {
  }

  /** Reading any text keeps the start positions and the spans inside the output. */
  lemma {:induction false} RunWellFormed(st: MarkupState, s: string, noTranslations: string)
    requires WellFormed(st)
    ensures WellFormed(Run(st, s, noTranslations))
    decreases |s|
  {
    if s != [] {
      if s[0] == '.' {
        if |s| > 1 {
          EscapeWellFormed(st, s[1], noTranslations);
          RunWellFormed(Escape(st, s[1], noTranslations), s[2..], noTranslations);
        }
      } else {
        RunWellFormed(st.(out := st.out + [s[0]]), s[1..], noTranslations);
      }
    }
  }

  /** Text without a dot is copied as it is, and sets no span. */
  lemma {:induction false} RunPlain(st: MarkupState, s: string, noTranslations: string)
    requires forall i :: 0 <= i < |s| ==> s[i] != '.'
    ensures Run(st, s, noTranslations) == st.(out := st.out + s)
    decreases |s|
  {
    if s == [] {
      assert st.out + s == st.out;
    } else {
      RunPlain(st.(out := st.out + [s[0]]), s[1..], noTranslations);
      assert st.out + [s[0]] + s[1..] == st.out + s;
    }
  }

  /** The mark-up text for a plain string: every dot doubled. */
  function EscapeDots(s: string): string
  {
    if s == [] then []
    else (if s[0] == '.' then ['.', '.'] else [s[0]]) + EscapeDots(s[1..])
  }

  /** Reading an escaped string outputs that string, whatever follows. */
  lemma {:induction false} RunEscaped(st: MarkupState, p: string, rest: string, noTranslations: string)
    ensures Run(st, EscapeDots(p) + rest, noTranslations) == Run(st.(out := st.out + p), rest, noTranslations)
    decreases |p|
  {
    if p == [] {
      assert EscapeDots(p) + rest == rest;
      assert st.out + p == st.out;
    } else {
      var piece := if p[0] == '.' then ['.', '.'] else [p[0]];
      var tail := EscapeDots(p[1..]) + rest;
      var st' := st.(out := st.out + [p[0]]);
      calc {
        EscapeDots(p) + rest;
        (piece + EscapeDots(p[1..])) + rest;
        piece + tail;
      }
      RunEscapedChar(st, p[0], tail, noTranslations);
      RunEscaped(st', p[1..], rest, noTranslations);
      assert st'.out + p[1..] == st.out + p by {
        assert [p[0]] + p[1..] == p;
      }
    }
  }

  /** One escaped character is read as itself. */
  lemma RunEscapedChar(st: MarkupState, c: char, tail: string, noTranslations: string)
    ensures Run(st, (if c == '.' then ['.', '.'] else [c]) + tail, noTranslations) ==
      Run(st.(out := st.out + [c]), tail, noTranslations)
  {
    var s := (if c == '.' then ['.', '.'] else [c]) + tail;
    if c == '.' {
      assert s[2..] == tail;
    } else {
      assert s[1..] == tail;
    }
  }

  /** Round trip: the mark-up of a plain string renders as that string, unstyled. */
  lemma EscapeDotsRoundTrip(p: string, noTranslations: string)
    ensures Run(Initial, EscapeDots(p), noTranslations) == MarkupState(p, [], 0, 0)
  {
    RunEscaped(Initial, p, [], noTranslations);
    assert EscapeDots(p) + [] == EscapeDots(p);
  }

  /** An escape sequence acts by `Escape` and reading goes on after it. */
  lemma RunEscapePair(st: MarkupState, c: char, rest: string, noTranslations: string)
    ensures Run(st, ['.', c] + rest, noTranslations) == Run(Escape(st, c, noTranslations), rest, noTranslations)
  {
    assert (['.', c] + rest)[2..] == rest;
  }

  /** `..` outputs one dot. */
  lemma DoubledDotIsDot(st: MarkupState, rest: string, noTranslations: string)
    ensures Run(st, ".." + rest, noTranslations) == Run(st.(out := st.out + "."), rest, noTranslations)
  {
    RunEscapePair(st, '.', rest, noTranslations);
  }

  /** `.0` outputs the "no translations" text. */
  lemma NoTranslationsEscape(st: MarkupState, rest: string, noTranslations: string)
    ensures Run(st, ".0" + rest, noTranslations) == Run(st.(out := st.out + noTranslations), rest, noTranslations)
  {
    RunEscapePair(st, '0', rest, noTranslations);
  }

  /** Any other escape letter is dropped. */
  lemma UnknownEscapeIgnored(st: MarkupState, c: char, rest: string, noTranslations: string)
    requires c !in ".cCuU0"
    ensures Run(st, ['.', c] + rest, noTranslations) == Run(st, rest, noTranslations)
  {
    RunEscapePair(st, c, rest, noTranslations);
  }

  /** A lone dot at the end produces nothing. */
  lemma TrailingDotIgnored(st: MarkupState, p: string, noTranslations: string)
    ensures Run(st, EscapeDots(p) + ".", noTranslations) == st.(out := st.out + p)
  {
    RunEscaped(st, p, ".", noTranslations);
  }

  /**
   * `.c` text `.C` styles exactly the output of the text as a language code, and
   * moves the language code start to the end of it.
   */
  lemma LanguageCodeSpan(st: MarkupState, p: string, rest: string, noTranslations: string)
    ensures Run(st, ".c" + EscapeDots(p) + ".C" + rest, noTranslations) ==
      Run(MarkupState(st.out + p, st.spans + [Span(LanguageCodeTag, |st.out|, |st.out| + |p|)],
                      |st.out| + |p|, st.untranslatedStart), rest, noTranslations)
  {
    var st1 := Escape(st, 'c', noTranslations);
    assert ".c" + EscapeDots(p) + ".C" + rest == ['.', 'c'] + (EscapeDots(p) + (['.', 'C'] + rest));
    RunEscapePair(st, 'c', EscapeDots(p) + (['.', 'C'] + rest), noTranslations);
    RunEscaped(st1, p, ['.', 'C'] + rest, noTranslations);
    RunEscapePair(st1.(out := st1.out + p), 'C', rest, noTranslations);
  }

  /** `.u` text `.U` likewise styles exactly the output of the text as an untranslated word. */
  lemma UntranslatedSpan(st: MarkupState, p: string, rest: string, noTranslations: string)
    ensures Run(st, ".u" + EscapeDots(p) + ".U" + rest, noTranslations) ==
      Run(MarkupState(st.out + p, st.spans + [Span(UntranslatedWord, |st.out|, |st.out| + |p|)],
                      st.languageCodeStart, |st.out| + |p|), rest, noTranslations)
  {
    var st1 := Escape(st, 'u', noTranslations);
    assert ".u" + EscapeDots(p) + ".U" + rest == ['.', 'u'] + (EscapeDots(p) + (['.', 'U'] + rest));
    RunEscapePair(st, 'u', EscapeDots(p) + (['.', 'U'] + rest), noTranslations);
    RunEscaped(st1, p, ['.', 'U'] + rest, noTranslations);
    RunEscapePair(st1.(out := st1.out + p), 'U', rest, noTranslations);
  }

  /** A `.C` with no `.c` before it styles everything from the start of the output. */
  lemma UnopenedCloseSpansFromStart(p: string, noTranslations: string)
    ensures Run(Initial, EscapeDots(p) + ".C", noTranslations).spans == [Span(LanguageCodeTag, 0, |p|)]
  {
    RunEscaped(Initial, p, ".C", noTranslations);
    RunEscapePair(Initial.(out := p), 'C', [], noTranslations);
    assert ['.', 'C'] + [] == ".C";
  }
}
