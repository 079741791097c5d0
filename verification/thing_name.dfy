/** `fixRawThingName`: the counted-thing name heard by the get intent, with one
    leading English article removed. */
module ThingName {
  import JsString

  const Article: string := "the "

  /** True when `s` starts with the exact four characters `"the "`. */
  predicate StartsWithArticle(s: string) {
    |s| >= 4 && s[..4] == Article
  }

  /** Compares `substr(0, 4)` with `"the "` and, on a match, keeps `substr(4)`. */
  function FixRawThingName(raw: string): (thing: string)
    ensures StartsWithArticle(raw) ==> Article + thing == raw
    ensures !StartsWithArticle(raw) ==> thing == raw
  {
    if JsString.Substr(raw, 0, 4) == Article then JsString.SubstrFrom(raw, 4) else raw
  }

  /** The result is always the input or the input minus its first four
      characters: at most one article is removed. */
  lemma StripsAtMostOnce(raw: string)
    ensures FixRawThingName(raw) == raw || (|raw| >= 4 && FixRawThingName(raw) == raw[4..])
  {
  }

  /** Putting the article back in front of any name and normalising gives the
      name back unchanged, even when the name itself starts with an article. */
  lemma PrefixRoundTrip(name: string)
    ensures FixRawThingName(Article + name) == name
  {
  }

  /** "the the x" loses only its first article. */
  lemma DoubleArticle(x: string)
    ensures FixRawThingName("the the " + x) == "the " + x
  {
  }

  /** Normalising twice differs from normalising once exactly when the name
      left after the first pass still starts with an article. */
  lemma IdempotentUnlessArticleRemains(raw: string)
    ensures FixRawThingName(FixRawThingName(raw)) == FixRawThingName(raw)
            <==> !StartsWithArticle(FixRawThingName(raw))
  {
  }

  /** Examples: a near miss such as "thesaurus" is left alone, and so is a
      capitalised article. */
  lemma Examples()
    ensures FixRawThingName("the pushups") == "pushups"
    ensures FixRawThingName("thesaurus") == "thesaurus"
    ensures FixRawThingName("The pushups") == "The pushups"
    ensures FixRawThingName("the") == "the"
  {
    PrefixRoundTrip("pushups");
    assert "the pushups" == Article + "pushups";
    assert "thesaurus"[3] != Article[3];
    assert "The pushups"[0] != Article[0];
  }
}
