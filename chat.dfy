/**
 * The rule-based chat helper (`chat_answer`): the prompt is lower-cased, the
 * FAQ keys are tried in their declared order as substrings, then the word
 * "acheter", then a default answer.
 */
module Chat {
  import opened Wrappers
  import Text

  /** The FAQ dictionary, in insertion order (the order `dict.items()` yields). */
  const Faq: seq<(string, string)> := [
    ("niches", "Recherchez petites pièces streetwear et accessoires. Surveille éditions limitées."),
    ("debuter", "Commencez par t-shirts et casquettes, vendez x1.6-x2."),
    ("prix", "Visez une marge 1.6–2.0 si possible.")
  ]

  const BuyingAdvice := "Commence par petites pièces populaires (casquettes, t-shirts), faible cout d'entrée."
  const DefaultAnswer := "Bonne question — préciser ex: 'quoi acheter pour 100€'"

  /** The answer of the first entry whose key occurs in `p`, if any. */
  function Lookup(faq: seq<(string, string)>, p: string): (r: Option<string>)
    ensures r.None? <==> forall i :: 0 <= i < |faq| ==> !Text.Contains(p, faq[i].0)
    ensures r.Some? ==> exists i :: (0 <= i < |faq| && Text.Contains(p, faq[i].0) && r.value == faq[i].1
                                     && forall j :: 0 <= j < i ==> !Text.Contains(p, faq[j].0))
  {
    if faq == [] then None
    else if Text.Contains(p, faq[0].0) then Some(faq[0].1)
    else
      var r := Lookup(faq[1..], p);
      assert forall i :: 1 <= i < |faq| ==> faq[i] == faq[1..][i - 1];
      if r.Some? then
        var i :| 0 <= i < |faq[1..]| && Text.Contains(p, faq[1..][i].0) && r.value == faq[1..][i].1
          && forall j :: 0 <= j < i ==> !Text.Contains(p, faq[1..][j].0);
        assert faq[i + 1] == faq[1..][i];
        r
      else r
  }

  /** `chat_answer(prompt)`. */
  function ChatAnswer(prompt: string): (r: string)
    ensures r == BuyingAdvice || r == DefaultAnswer || exists i :: 0 <= i < |Faq| && r == Faq[i].1
    ensures Text.Contains(Text.Lower(prompt), "acheter") ==> r == BuyingAdvice || exists i :: 0 <= i < |Faq| && r == Faq[i].1
  {
    var p := Text.Lower(prompt);
    match Lookup(Faq, p)
    case Some(answer) => answer
    case None =>
      if Text.Contains(p, "quoi acheter") || Text.Contains(p, "acheter") then BuyingAdvice
      else DefaultAnswer
  }

  /** "quoi acheter" holds "acheter", so the first test of the fallback adds nothing. */
  lemma {:induction false} QuoiAcheterRedundant(p: string)
    ensures Text.Contains(p, "quoi acheter") || Text.Contains(p, "acheter") <==> Text.Contains(p, "acheter")
  {
    if Text.Contains(p, "quoi acheter") {
      assert "quoi acheter"[5..12] == "acheter";
      Text.ContainsAt("quoi acheter", "acheter", 5);
      Text.ContainsTransitive(p, "quoi acheter", "acheter");
    }
  }

  /**
   * The whole decision, rule by rule: the keys in the order niches, debuter,
   * prix, then "acheter", then the default, all tested on the lower-cased prompt.
   */
  lemma {:induction false} ChatAnswerRules(prompt: string)
    ensures var p := Text.Lower(prompt);
      && (Text.Contains(p, "niches") ==> ChatAnswer(prompt) == Faq[0].1)
      && (!Text.Contains(p, "niches") && Text.Contains(p, "debuter") ==> ChatAnswer(prompt) == Faq[1].1)
      && (!Text.Contains(p, "niches") && !Text.Contains(p, "debuter") && Text.Contains(p, "prix") ==> ChatAnswer(prompt) == Faq[2].1)
      && (!Text.Contains(p, "niches") && !Text.Contains(p, "debuter") && !Text.Contains(p, "prix") ==>
           ChatAnswer(prompt) == if Text.Contains(p, "acheter") then BuyingAdvice else DefaultAnswer)
  {
    var p := Text.Lower(prompt);
    QuoiAcheterRedundant(p);
    assert Faq[1..] == [Faq[1], Faq[2]];
    assert Faq[1..][1..] == [Faq[2]];
  }

  /** The answer does not depend on the case of the prompt's letters. */
  lemma {:induction false} CaseInsensitive(prompt: string)
    ensures ChatAnswer(Text.Lower(prompt)) == ChatAnswer(prompt)
  {
    Text.LowerIdempotent(prompt);
  }

  /** A prompt naming two keys gets the answer of the earlier key. */
  lemma {:induction false} FirstKeyWins(prompt: string)
    requires Text.Contains(Text.Lower(prompt), "prix") && Text.Contains(Text.Lower(prompt), "niches")
    ensures ChatAnswer(prompt) == "Recherchez petites pièces streetwear et accessoires. Surveille éditions limitées."
  {
    ChatAnswerRules(prompt);
  }
}
