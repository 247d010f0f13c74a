/** Weighted lists of names in the knob syntax, `a:2,b,c:5`: printing one and choosing from the text. */
module Items {
  import opened Text
  import opened Numbers
  import opened Choice

  datatype Item = Item(name: string, weight: Option<string>)

  /** A text that the commas and colons of a list leave whole. */
  predicate IsName(text: string) {
    text != [] && forall c | c in text :: c != ',' && c != ':' && c != NUL
  }

  ghost predicate ItemOk(a: Item) {
    IsName(a.name) && (a.weight.Some? ==> IsName(a.weight.value))
  }

  function WeightOf(a: Item): nat {
    if a.weight.Some? then ParseULL(a.weight.value).value else 1
  }

  function WeightsOf(items: seq<Item>): (ws: seq<nat>)
    ensures |ws| == |items|
    ensures forall i | 0 <= i < |ws| :: ws[i] == WeightOf(items[i])
  {
    if items == [] then [] else [WeightOf(items[0])] + WeightsOf(items[1..])
  }

  function PrintItem(a: Item): string {
    a.name + if a.weight.Some? then [':'] + a.weight.value else []
  }

  function PrintAll(items: seq<Item>): (parts: seq<string>)
    ensures |parts| == |items|
    ensures forall i | 0 <= i < |parts| :: parts[i] == PrintItem(items[i])
  {
    if items == [] then [] else [PrintItem(items[0])] + PrintAll(items[1..])
  }

  /** The text of a list. */
  function PrintItems(items: seq<Item>): string {
    Join(PrintAll(items), ',')
  }

  lemma NameIsToken(s: string)
    requires IsName(s)
    ensures IsToken(s, ",") && IsToken(s, ":") && NUL !in s
  {
  }

  lemma UnweightedReads(r: string)
    requires IsToken(r, ":")
    ensures Head(r) == r && Weight(r) == 1
  {
    TokensOne(r, ":");
    assert r[0] in r;
    SkipUnique(r, ":", 0);
    assert r[0..] == r;
    assert forall i | 0 <= i < |r| :: r[i] in r;
    RunUnique(r, ":", |r|);
    assert r[..|r|] == r;
  }

  /** The colon split takes a printed item apart again. */
  lemma ItemReads(a: Item)
    requires ItemOk(a)
    ensures Head(PrintItem(a)) == a.name && Weight(PrintItem(a)) == WeightOf(a)
    ensures IsToken(PrintItem(a), ",") && NUL !in PrintItem(a)
  {
    hide IsName, Head, Weight, ParseULL;
    NameIsToken(a.name);
    if a.weight.Some? {
      NameIsToken(a.weight.value);
      WeighedPart(a.name, a.weight.value);
      assert PrintItem(a) == a.name + [':'] + a.weight.value;
    } else {
      UnweightedReads(a.name);
      assert PrintItem(a) == a.name;
    }
  }

  lemma {:induction false} JoinKeeps(parts: seq<string>, c: char, x: char)
    requires x != c && forall i | 0 <= i < |parts| :: x !in parts[i]
    ensures x !in Join(parts, c)
  {
    if |parts| > 1 {
      JoinKeeps(parts[1..], c, x);
    }
  }

  /** The printed list is cut into the printed items, with their weights. */
  lemma ItemsRead(items: seq<Item>)
    requires forall a | a in items :: ItemOk(a)
    ensures Tokens(PrintItems(items), ",") == PrintAll(items)
    ensures Weights(PrintAll(items)) == WeightsOf(items)
    ensures NUL !in PrintItems(items)
  {
    hide ItemOk, PrintItem, WeightOf, Weight;
    forall i | 0 <= i < |items|
      ensures var p := PrintItem(items[i]); IsToken(p, ",") && NUL !in p && Weight(p) == WeightOf(items[i])
    {
      assert items[i] in items;
      ItemReads(items[i]);
    }
    TokensOfJoin(PrintAll(items), ',', ",");
    JoinKeeps(PrintAll(items), ',', NUL);
  }

  /** A list can be chosen from if and only if it has at most 100 items, less than 8192 characters and a total weight
  that is not 0 modulo 2^64. */
  lemma ChoiceDefinedIff(items: seq<Item>)
    requires items != [] && forall a | a in items :: ItemOk(a)
    ensures ChoiceDefined(PrintItems(items)) <==>
            |items| <= 100 && |PrintItems(items)| < 8192 && Sum(WeightsOf(items)) % 0x1_0000_0000_0000_0000 != 0
  {
    hide ItemOk, PrintItems, WeightsOf, Tokens, Sum;
    ItemsRead(items);
  }

  /** Choosing from a printed list gives the name of the selected item; a draw is taken unless the total is 1. */
  lemma ChooseItem(items: seq<Item>, draw: nat) returns (k: nat)
    requires (forall a | a in items :: ItemOk(a)) && ChoiceDefined(PrintItems(items))
    ensures Total(WeightsOf(items)) != 0 && (NeedsDraw(PrintItems(items)) <==> Total(WeightsOf(items)) != 1)
    ensures k == Selected(WeightsOf(items), draw) < |items|
    ensures Choose(PrintItems(items), draw) == items[k].name
  {
    hide ItemOk, PrintItems, PrintItem, WeightsOf, Tokens, Total, Head, Weight, Selected;
    ItemsRead(items);
    k := ChosenIndex(PrintItems(items), draw);
    assert items[k] in items;
    ItemReads(items[k]);
  }

  /** Nothing behind a second colon is looked at. */
  lemma SecondColonEndsWeight(name: string, weight: string, more: string)
    requires IsToken(name, ":") && IsToken(weight, ":")
    ensures Head(name + [':'] + (weight + [':'] + more)) == name
    ensures Weight(name + [':'] + (weight + [':'] + more)) == ParseULL(weight).value
  {
    hide ParseULL, Tokens, TokenEnd, FirstToken, AfterToken, HasToken;
    var rest := weight + [':'] + more;
    TokensCons(weight, ':', more, ":");
    TokensCons(name, ':', rest, ":");
    TokenInFront(name, ':', rest, ":");
    assert (name + [':'] + rest)[..|name|] == name;
  }
}
