/** The deterministic merge used when no language model answers: two notes
    become one text without any external call.
 */
module Fallback {
  import opened JsString

  /** Returned when neither note has any text. */
  const Placeholder: string := "Combined idea"

  /** Both notes count as short phrases when each has at most this many words. */
  const ShortPhraseLimit: nat := 3

  // The two templates, as fixed text around the trimmed notes.
  const ExplorationPrefix: string := "\U{1F4A1} \""
  const ExplorationMiddle: string := "\" meets \""
  const ExplorationSuffix: string := "\" \U{2014} explore how these concepts amplify each other"
  const SynthesisPrefix: string := "\U{2728} Synthesis:\n\n"
  const SynthesisMiddle: string := "\n\n\U{2194}\U{FE0F} Combined with:\n\n"
  const SynthesisSuffix: string :=
    "\n\n\U{1F4AD} These ideas together suggest a bigger opportunity. Consider the intersection."

  /** The short-phrase "exploration" text. */
  function Exploration(clean1: string, clean2: string): string {
    ExplorationPrefix + clean1 + ExplorationMiddle + clean2 + ExplorationSuffix
  }

  /** The longer-idea "synthesis narrative" text. */
  function Synthesis(clean1: string, clean2: string): string {
    SynthesisPrefix + clean1 + SynthesisMiddle + clean2 + SynthesisSuffix
  }

  /** Text built as `pre + x + mid + y + suf` holds `x`, then `y`. */
  lemma TemplateInOrder(pre: string, x: string, mid: string, y: string, suf: string)
    ensures InOrder(pre + x + mid + y + suf, x, y)
  {
    var t := pre + x + mid + y + suf;
    var i, j := |pre|, |pre| + |x| + |mid|;
    assert t[i..i + |x|] == x;
    assert t[j..j + |y|] == y;
    assert OccursAt(x, t, i) && OccursAt(y, t, j);
  }

  /** Both notes are short phrases (at most three space-separated words each). */
  predicate BothShort(clean1: string, clean2: string) {
    WordCount(clean1) <= ShortPhraseLimit && WordCount(clean2) <= ShortPhraseLimit
  }

  /** The fallback merge. A missing or empty note is falsy; when only one note
      has text it is returned as given, untrimmed. Otherwise both notes are
      trimmed and the template is chosen by their word counts. */
  function SynthesizeFallback(idea1: Value, idea2: Value): (r: string)
    ensures |r| > 0
    ensures Truthy(idea1) && Truthy(idea2) ==> InOrder(r, Trim(idea1.s), Trim(idea2.s))
  {
    if !Truthy(idea1) && !Truthy(idea2) then Placeholder
    else if !Truthy(idea1) then idea2.s
    else if !Truthy(idea2) then idea1.s
    else
      var clean1 := Trim(idea1.s);
      var clean2 := Trim(idea2.s);
      if BothShort(clean1, clean2) then
        TemplateInOrder(ExplorationPrefix, clean1, ExplorationMiddle, clean2, ExplorationSuffix);
        Exploration(clean1, clean2)
      else
        TemplateInOrder(SynthesisPrefix, clean1, SynthesisMiddle, clean2, SynthesisSuffix);
        Synthesis(clean1, clean2)
  }

  /** With no text in either note the result is the placeholder, and the
      placeholder comes out only then or when a note is literally that text. */
  lemma FallbackPlaceholder(idea1: Value, idea2: Value)
    ensures !Truthy(idea1) && !Truthy(idea2) ==> SynthesizeFallback(idea1, idea2) == Placeholder
    ensures SynthesizeFallback(idea1, idea2) == Placeholder ==>
              (!Truthy(idea1) && !Truthy(idea2)) || idea1 == Str(Placeholder) || idea2 == Str(Placeholder)
  {
    var r := SynthesizeFallback(idea1, idea2);
    if Truthy(idea1) && Truthy(idea2) {
      var c1, c2 := Trim(idea1.s), Trim(idea2.s);
      if BothShort(c1, c2) {
        assert r[0] == ExplorationPrefix[0];
      } else {
        assert r[0] == SynthesisPrefix[0];
      }
      assert r[0] != Placeholder[0];
    }
  }

  /** When exactly one note has text, that note is the result, unchanged. */
  lemma FallbackSingleNote(idea1: Value, idea2: Value)
    requires Truthy(idea1) != Truthy(idea2)
    ensures Truthy(idea1) ==> SynthesizeFallback(idea1, idea2) == idea1.s
    ensures Truthy(idea2) ==> SynthesizeFallback(idea1, idea2) == idea2.s
  {
  }

  /** A missing note and an empty note are the same to the fallback. */
  lemma FallbackEmptyIsAbsent(idea1: Value, idea2: Value)
    ensures SynthesizeFallback(Str(""), idea2) == SynthesizeFallback(Absent, idea2)
    ensures SynthesizeFallback(idea1, Str("")) == SynthesizeFallback(idea1, Absent)
  {
  }

  /** With both notes present, the exploration template fires exactly when
      each trimmed note holds at most two space characters; otherwise the
      synthesis template fires. */
  lemma FallbackBranch(idea1: Value, idea2: Value)
    requires Truthy(idea1) && Truthy(idea2)
    ensures var c1, c2 := Trim(idea1.s), Trim(idea2.s);
            var r := SynthesizeFallback(idea1, idea2);
            && (r == Exploration(c1, c2) <==> CountChar(c1, ' ') <= 2 && CountChar(c2, ' ') <= 2)
            && (r == Synthesis(c1, c2) <==> CountChar(c1, ' ') > 2 || CountChar(c2, ' ') > 2)
  {
    var c1, c2 := Trim(idea1.s), Trim(idea2.s);
    assert Exploration(c1, c2)[0] == ExplorationPrefix[0];
    assert Synthesis(c1, c2)[0] == SynthesisPrefix[0];
  }

  /** Every note with text survives into the result, at least in trimmed form. */
  lemma FallbackKeepsNotes(idea1: Value, idea2: Value)
    ensures Truthy(idea1) ==> exists i :: OccursAt(Trim(idea1.s), SynthesizeFallback(idea1, idea2), i)
    ensures Truthy(idea2) ==> exists i :: OccursAt(Trim(idea2.s), SynthesizeFallback(idea1, idea2), i)
  {
    var r := SynthesizeFallback(idea1, idea2);
    if Truthy(idea1) && Truthy(idea2) {
      var c1, c2 := Trim(idea1.s), Trim(idea2.s);
      var i, j :| OccursAt(c1, r, i) && i + |c1| <= j && OccursAt(c2, r, j);
    } else if Truthy(idea1) {
      TrimOccurs(idea1.s);
    } else if Truthy(idea2) {
      TrimOccurs(idea2.s);
    }
  }

  /** A note of only whitespace is still present: it trims to the empty
      string, counts as one word, and leaves an empty slot in the template. */
  lemma FallbackWhitespaceNote(idea1: Value, idea2: Value)
    requires Truthy(idea1) && Truthy(idea2)
    requires forall k :: 0 <= k < |idea1.s| ==> IsWs(idea1.s[k])
    requires CountChar(Trim(idea2.s), ' ') <= 2
    ensures SynthesizeFallback(idea1, idea2) == Exploration("", Trim(idea2.s))
  {
    WhitespaceOnlyIsOneWord(idea1.s);
  }
}
