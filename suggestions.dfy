/**
 * The list processing applied to the classifier's answer in
 * `_identify_bird_uncached`: keep only candidates that name a catalog
 * species, give up when none is left, and when the description speaks of
 * a gull keep only the gull candidates, provided at least one survives.
 */
module Suggestions {
  import opened Wrappers
  import opened Text
  import opened Catalog

  /** One parsed suggestion: the value of its "bird" key, if any, and its confidence. */
  datatype Candidate = Candidate(bird: Option<string>, confidence: real)

  /** `s.get("bird") in allowed_birds`. */
  predicate InCatalog(c: Candidate)
  {
    c.bird.Some? && c.bird.value in BirdPoints
  }

  /** `s["bird"] in gulls`. */
  predicate IsGull(c: Candidate)
  {
    c.bird.Some? && c.bird.value in GullSpecies
  }

  /** `a` is `b` with some elements left out, the rest in their original order. */
  predicate IsSubsequence<T(==)>(a: seq<T>, b: seq<T>)
  {
    if a == [] then true
    else if b == [] then false
    else (a[0] == b[0] && IsSubsequence(a[1..], b[1..])) || IsSubsequence(a, b[1..])
  }

  /**
   * The catalog-name filter: a subsequence holding exactly the candidates
   * that name a catalog species, each as often as in the input.
   */
  function KeepCatalogNames(raw: seq<Candidate>): (r: seq<Candidate>)
    ensures IsSubsequence(r, raw)
    ensures forall c :: c in r <==> c in raw && InCatalog(c)
    ensures forall c :: multiset(r)[c] == if InCatalog(c) then multiset(raw)[c] else 0
  {
    if raw == [] then []
    else
      var rest := KeepCatalogNames(raw[1..]);
      if InCatalog(raw[0]) then
        assert ([raw[0]] + rest)[1..] == rest;
        assert raw == [raw[0]] + raw[1..];
        [raw[0]] + rest
      else
        assert raw == [raw[0]] + raw[1..];
        rest
  }

  /** The gull filter: a subsequence holding exactly the gull candidates, each as often as in the input. */
  function KeepGulls(s: seq<Candidate>): (r: seq<Candidate>)
    ensures IsSubsequence(r, s)
    ensures forall c :: c in r <==> c in s && IsGull(c)
    ensures forall c :: multiset(r)[c] == if IsGull(c) then multiset(s)[c] else 0
  {
    if s == [] then []
    else
      var rest := KeepGulls(s[1..]);
      if IsGull(s[0]) then
        assert ([s[0]] + rest)[1..] == rest;
        assert s == [s[0]] + s[1..];
        [s[0]] + rest
      else
        assert s == [s[0]] + s[1..];
        rest
  }

  /**
   * `"gull" in description.lower() or "seagull" in description.lower()`; the
   * "seagull" test adds nothing, so this holds exactly when the lower-cased
   * description contains "gull".
   */
  predicate MentionsGull(description: string)
    ensures MentionsGull(description) <==> Contains(Lower(description), "gull")
  {
    var lowered := Lower(description);
    SeagullContainsGull(lowered);
    Contains(lowered, "gull") || Contains(lowered, "seagull")
  }

  /** Since every gull is a catalog species, filtering for gulls after the catalog filter keeps every gull. */
  lemma {:induction false} GullsSurviveCatalogFilter(raw: seq<Candidate>)
    ensures KeepGulls(KeepCatalogNames(raw)) == KeepGulls(raw)
  {
    GullsInCatalog();
    if raw != [] {
      GullsSurviveCatalogFilter(raw[1..]);
      var head := if InCatalog(raw[0]) then [raw[0]] else [];
      var rest := KeepCatalogNames(raw[1..]);
      KeepGullsAppend(head, rest);
      assert KeepGulls(head) == (if IsGull(raw[0]) then [raw[0]] else []) by {
        if head != [] { assert head[1..] == []; }
      }
    }
  }

  lemma {:induction false} KeepGullsAppend(a: seq<Candidate>, b: seq<Candidate>)
    ensures KeepGulls(a + b) == KeepGulls(a) + KeepGulls(b)
  {
    if a != [] {
      assert (a + b)[1..] == a[1..] + b;
      KeepGullsAppend(a[1..], b);
    } else {
      assert a + b == b;
    }
  }

  /**
   * The post-filter: `None` when no candidate names a catalog species;
   * otherwise the catalog candidates in their original order, narrowed to
   * the gull candidates when the description mentions a gull and some gull
   * candidate exists.
   */
  function FilterSuggestions(raw: seq<Candidate>, description: string): (r: Option<seq<Candidate>>)
    ensures r.None? <==> forall c :: c in raw ==> !InCatalog(c)
    ensures r.Some? ==> r.value != [] && IsSubsequence(r.value, raw) && forall c :: c in r.value ==> InCatalog(c)
    ensures r.Some? && MentionsGull(description) && (exists c :: c in raw && IsGull(c)) ==> r.value == KeepGulls(raw)
    ensures r.Some? && !(MentionsGull(description) && exists c :: c in raw && IsGull(c)) ==> r.value == KeepCatalogNames(raw)
  {
    var suggestions := KeepCatalogNames(raw);
    if suggestions == [] then
      None
    else
      assert suggestions[0] in raw && InCatalog(suggestions[0]);
      if MentionsGull(description) then
        var gulls := KeepGulls(suggestions);
        GullsSurviveCatalogFilter(raw);
        if gulls != [] then
          assert gulls[0] in raw && IsGull(gulls[0]);
          Some(gulls)
        else
          Some(suggestions)
      else Some(suggestions)
  }

  /** `sum(s["confidence"] for s in suggestions if s["confidence"] > 0)`, over exact reals. */
  function PositiveTotal(s: seq<Candidate>): (total: real)
    ensures total >= 0.0
  {
    if s == [] then 0.0
    else (if s[0].confidence > 0.0 then s[0].confidence else 0.0) + PositiveTotal(s[1..])
  }

  /** Every confidence divided by `total`; names and order untouched. */
  function Rescaled(s: seq<Candidate>, total: real): (r: seq<Candidate>)
    requires total > 0.0
    ensures |r| == |s|
    ensures forall k :: 0 <= k < |s| ==> r[k].bird == s[k].bird && r[k].confidence * total == s[k].confidence
  {
    seq(|s|, k requires 0 <= k < |s| => s[k].(confidence := s[k].confidence / total))
  }

  /** Dividing by a positive total divides the positive part by it. */
  lemma {:induction false} RescaledTotal(s: seq<Candidate>, total: real)
    requires total > 0.0
    ensures PositiveTotal(Rescaled(s, total)) == PositiveTotal(s) / total
  {
    if s != [] {
      assert Rescaled(s, total)[1..] == Rescaled(s[1..], total);
      RescaledTotal(s[1..], total);
      var x := s[0].confidence;
      assert Rescaled(s, total)[0].confidence == x / total;
      var head := if x > 0.0 then x else 0.0;
      Quotients(x, head, PositiveTotal(s[1..]), total);
    }
  }

  /** The real arithmetic of one step: a positive divisor keeps the sign and distributes over a sum. */
  lemma Quotients(x: real, head: real, rest: real, total: real)
    requires total > 0.0
    ensures x / total > 0.0 <==> x > 0.0
    ensures head / total + rest / total == (head + rest) / total
    ensures total / total == 1.0
  {
  }

  /** After normalisation the positive confidences sum to one, whenever there were any. */
  lemma NormalizedSumsToOne(s: seq<Candidate>)
    requires PositiveTotal(s) > 0.0
    ensures PositiveTotal(Rescaled(s, PositiveTotal(s))) == 1.0
  {
    var total := PositiveTotal(s);
    RescaledTotal(s, total);
    Quotients(total, total, 0.0, total);
  }

  /**
   * The normalisation loop: when the positive confidences have a positive
   * total, each confidence is divided by it in place; otherwise the list is
   * returned as it is.
   */
  method NormalizeConfidences(suggestions: seq<Candidate>) returns (normalized: seq<Candidate>)
    ensures PositiveTotal(suggestions) > 0.0 ==> normalized == Rescaled(suggestions, PositiveTotal(suggestions))
    ensures PositiveTotal(suggestions) <= 0.0 ==> normalized == suggestions
  {
    normalized := suggestions;
    var total := PositiveTotal(suggestions);
    if total > 0.0 {
      var i := 0;
      while i < |normalized|
        invariant 0 <= i <= |normalized| == |suggestions|
        invariant normalized[..i] == Rescaled(suggestions, total)[..i]
        invariant normalized[i..] == suggestions[i..]
      {
        normalized := normalized[i := normalized[i].(confidence := normalized[i].confidence / total)];
        i := i + 1;
      }
      assert normalized == normalized[..i];
    }
  }

  /**
   * The classifier answer after parsing: `None` when the reply was not
   * valid JSON, the candidates otherwise. Returns `None` when there is
   * nothing usable, else the filtered candidates with normalised confidences.
   */
  method IdentifyBird(parsed: Option<seq<Candidate>>, description: string) returns (r: Option<seq<Candidate>>)
    ensures parsed.None? ==> r.None?
    ensures parsed.Some? ==> (r.None? <==> forall c :: c in parsed.value ==> !InCatalog(c))
    ensures r.Some? ==> parsed.Some? && FilterSuggestions(parsed.value, description).Some?
    ensures r.Some? ==> var kept := FilterSuggestions(parsed.value, description).value;
      |r.value| == |kept| &&
      (forall k :: 0 <= k < |kept| ==> r.value[k].bird == kept[k].bird) &&
      (PositiveTotal(kept) > 0.0 ==> PositiveTotal(r.value) == 1.0) &&
      r.value == if PositiveTotal(kept) > 0.0 then Rescaled(kept, PositiveTotal(kept)) else kept
  {
    if parsed.None? {
      return None;
    }
    var filtered := FilterSuggestions(parsed.value, description);
    if filtered.None? {
      return None;
    }
    var normalized := NormalizeConfidences(filtered.value);
    if PositiveTotal(filtered.value) > 0.0 {
      NormalizedSumsToOne(filtered.value);
    }
    return Some(normalized);
  }

  lemma SeagullMentioned()
    ensures MentionsGull("Seagull")
  {
    var lowered := Lower("Seagull");
    assert lowered[0] == 's';
    assert lowered == "seagull";
    assert "seagull" <= lowered;
  }

  /** "Seagull" in the description: of Ring-billed Gull, American Robin and Herring Gull the robin is dropped. */
  lemma SeagullDescription()
    ensures
      var ringBilled := Candidate(Some("Ring-billed Gull"), 0.5);
      var robin := Candidate(Some("American Robin"), 0.3);
      var herring := Candidate(Some("Herring Gull"), 0.2);
      FilterSuggestions([ringBilled, robin, herring], "Seagull") == Some([ringBilled, herring])
  {
    var ringBilled := Candidate(Some("Ring-billed Gull"), 0.5);
    var robin := Candidate(Some("American Robin"), 0.3);
    var herring := Candidate(Some("Herring Gull"), 0.2);
    SeagullMentioned();
    GullsInCatalog();
    var raw := [ringBilled, robin, herring];
    assert raw[1..] == [robin, herring];
    assert raw[2..] == [herring];
    assert IsGull(ringBilled) && IsGull(herring) && !IsGull(robin);
    assert KeepGulls([herring]) == [herring];
    assert KeepGulls([robin, herring]) == [herring];
    assert KeepGulls(raw) == [ringBilled, herring];
    GullsSurviveCatalogFilter(raw);
    assert ringBilled in KeepCatalogNames(raw);
  }
}
