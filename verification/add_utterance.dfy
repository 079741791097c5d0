/** The split of the add intent's `whatToAdd` slot, such as "50 jumping jacks",
    into the amount token and the counted-thing name at its first space. */
module AddUtterance {
  import JsString

  /** `NoSpace` is the malformed branch ("add fifty"); otherwise the amount token
      (passed on unvalidated) and the rest of the utterance, left as spoken. */
  datatype Split = NoSpace | Parts(num: string, thingName: string)

  /** `indexOf(' ')`, then `substr(0, i)` and `substr(i + 1)`. */
  function SplitUtterance(s: string): (r: Split)
    ensures r.NoSpace? <==> ' ' !in s
    ensures r.Parts? ==> ' ' !in r.num && r.num + " " + r.thingName == s
  {
    var i := JsString.IndexOf(s, ' ');
    if i == -1 then NoSpace
    else
      var num := JsString.Substr(s, 0, i);
      var thingName := JsString.SubstrFrom(s, i + 1);
      assert num == s[..i];
      assert thingName == s[i + 1..];
      assert s == s[..i] + [s[i]] + s[i + 1..];
      Parts(num, thingName)
  }

  /** The split happens at the first space, whatever follows it. */
  lemma SplitAtFirstSpace(s: string, i: nat)
    requires i < |s| && s[i] == ' ' && ' ' !in s[..i]
    ensures SplitUtterance(s) == Parts(s[..i], s[i + 1..])
  {
  }

  /** Joining an amount token without spaces to any name with one space and
      splitting again gives back the two parts. */
  lemma JoinSplitRoundTrip(num: string, thingName: string)
    requires ' ' !in num
    ensures SplitUtterance(num + " " + thingName) == Parts(num, thingName)
  {
    var s := num + " " + thingName;
    assert s[|num|] == ' ';
    var r := SplitUtterance(s);
    assert r.Parts?;
    var n := |r.num|;
    assert n == |num|;
    assert r.num == s[..n] == num;
    assert r.thingName == s[n + 1..] == thingName;
  }

  /** Examples: a single word, or nothing at all, is the malformed branch. */
  lemma NoSpaceExamples()
    ensures SplitUtterance("fifty") == NoSpace
    ensures SplitUtterance("") == NoSpace
  {
  }
}
