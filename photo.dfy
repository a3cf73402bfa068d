/**
 * The local photo heuristic (`generate_description_from_photo_local`): a
 * colour word from the average RGB triple, and a title, a description and a
 * comma-separated tag list built from the cleaned file name.
 */
module Photo {
  import Text

  const White := "clair / blanc"
  const Blue := "bleu"
  const Green := "vert"
  const Mixed := "couleur variée"

  /** The colour rules, tried in order on the integer channel means. */
  function ColorName(r: int, g: int, b: int): (c: string)
    ensures c == White || c == Blue || c == Green || c == Mixed
  {
    if r > 200 && g > 200 && b > 200 then White
    else if b > 150 && r < 120 then Blue
    else if g > 140 && r < 120 then Green
    else Mixed
  }

  /** Each colour word as the condition under which it is chosen, both directions. */
  lemma {:induction false} ColorRules(r: int, g: int, b: int)
    ensures ColorName(r, g, b) == White <==> r > 200 && g > 200 && b > 200
    ensures ColorName(r, g, b) == Blue <==> !(r > 200 && g > 200 && b > 200) && b > 150 && r < 120
    ensures ColorName(r, g, b) == Green <==> !(b > 150 && r < 120) && g > 140 && r < 120
    ensures ColorName(r, g, b) == Mixed <==> !(r > 200 && g > 200 && b > 200) && !(b > 150 && r < 120) && !(g > 140 && r < 120)
  {
    assert White[0] != Blue[0] && White[0] != Green[0] && White[1] != Mixed[1];
    assert Blue[0] != Green[0] && Blue[0] != Mixed[0] && Green[0] != Mixed[0];
  }

  /** A bluish and greenish dark-red pixel is called blue: the blue rule comes first. */
  lemma {:induction false} BlueBeforeGreen(r: int, g: int, b: int)
    requires r < 120 && g > 140 && b > 150
    ensures ColorName(r, g, b) == Blue
  {
  }

  /** The words longer than two characters, in order. */
  function LongWords(ws: seq<string>): (r: seq<string>)
    ensures |r| <= |ws|
    ensures forall w :: w in r <==> w in ws && |w| > 2
    ensures forall w :: multiset(r)[w] == if |w| > 2 then multiset(ws)[w] else 0
  {
    if ws == [] then []
    else
      var rest := LongWords(ws[1..]);
      assert ws == [ws[0]] + ws[1..];
      assert multiset(ws) == multiset{ws[0]} + multiset(ws[1..]);
      assert forall w :: w in ws <==> w == ws[0] || w in ws[1..];
      if |ws[0]| > 2 then [ws[0]] + rest else rest
  }

  /** The filter keeps the order: the long words of a concatenation are those of each part. */
  lemma {:induction false} LongWordsConcat(a: seq<string>, b: seq<string>)
    ensures LongWords(a + b) == LongWords(a) + LongWords(b)
  {
    if a == [] {
      assert a + b == b;
    } else {
      assert (a + b)[0] == a[0] && (a + b)[1..] == a[1..] + b;
      LongWordsConcat(a[1..], b);
    }
  }

  /** The tag words: at most six long words of the name, then "vinted" and "revente". */
  function TagList(name: string): seq<string> {
    var long := LongWords(Text.Words(name));
    (if |long| <= 6 then long else long[..6]) + ["vinted", "revente"]
  }

  /** The `tags` string: the tag words joined with ", ". */
  function Tags(name: string): string {
    Text.Join(", ", TagList(name))
  }

  /**
   * The tag words are the first (at most six) long words of the name, in
   * order, each a word of the name of more than two characters, followed by
   * "vinted" and "revente".
   */
  lemma {:induction false} TagListSpec(name: string)
    ensures var long := LongWords(Text.Words(name));
      var t := TagList(name);
      && |t| == (if |long| <= 6 then |long| else 6) + 2
      && t[..|t| - 2] <= long
      && t[|t| - 2..] == ["vinted", "revente"]
      && forall i :: 0 <= i < |t| - 2 ==> |t[i]| > 2 && t[i] in Text.Words(name)
  {
    var long := LongWords(Text.Words(name));
    var t := TagList(name);
    var head := if |long| <= 6 then long else long[..6];
    assert t == head + ["vinted", "revente"];
    assert t[..|t| - 2] == head;
    assert t[|t| - 2..] == ["vinted", "revente"];
    forall i | 0 <= i < |t| - 2
      ensures |t[i]| > 2 && t[i] in Text.Words(name)
    {
      assert t[i] == long[i];
      assert long[i] in long;
    }
  }

  /** There are never more than eight tags, two of them fixed. */
  lemma {:induction false} AtMostEightTags(name: string)
    ensures 2 <= |TagList(name)| <= 8
  {
    TagListSpec(name);
  }

  /** A name without a word longer than two characters gets only the two fixed tags. */
  lemma {:induction false} FixedTagsOnly(name: string)
    requires forall w :: w in Text.Words(name) ==> |w| <= 2
    ensures Tags(name) == "vinted, revente"
  {
    NoLongWords(Text.Words(name));
    assert TagList(name) == ["vinted", "revente"];
    FixedTagsText();
  }

  lemma {:induction false} NoLongWords(ws: seq<string>)
    requires forall w :: w in ws ==> |w| <= 2
    ensures LongWords(ws) == []
  {
    if ws != [] {
      assert ws[0] in ws;
      assert forall w :: w in ws[1..] ==> w in ws;
      NoLongWords(ws[1..]);
    }
  }

  lemma {:induction false} FixedTagsText()
    ensures Text.Join(", ", ["vinted", "revente"]) == "vinted, revente"
  {
    assert ["vinted", "revente"][1..] == ["revente"];
  }

  /** The `title` string. */
  function Title(name: string): string {
    name + " — Très bon état"
  }

  /** The `desc` string. */
  function Description(name: string, color: string): string {
    name + " en très bon état. Couleur : " + color + ". Aucune déchirure visible. "
    + "Taille à confirmer — indiquez la taille exacte. Parfait pour revente. Nettoyage conseillé."
  }

  /** The description names the colour word right after "Couleur : ". */
  lemma {:induction false} DescriptionNamesColor(name: string, color: string)
    ensures Text.Contains(Description(name, color), "Couleur : " + color)
  {
    var prefix := name + " en très bon état. ";
    var d := Description(name, color);
    var k := "Couleur : " + color;
    assert d == prefix + k + ". Aucune déchirure visible. "
      + "Taille à confirmer — indiquez la taille exacte. Parfait pour revente. Nettoyage conseillé.";
    assert d[|prefix|..|prefix| + |k|] == k;
    Text.ContainsAt(d, k, |prefix|);
  }

  /** The triple `(title, desc, tags)` for a cleaned name and the average colour. */
  function Generate(name: string, r: int, g: int, b: int): (t: (string, string, string))
    ensures name <= t.0
    ensures Text.Contains(t.1, "Couleur : " + ColorName(r, g, b))
  {
    DescriptionNamesColor(name, ColorName(r, g, b));
    (Title(name), Description(name, ColorName(r, g, b)), Tags(name))
  }
}
