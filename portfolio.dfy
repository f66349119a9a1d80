/** The portfolio page's data rules: one featured project shown large, and
    the remaining projects listed below it. */
module Portfolio {
  import opened Wrappers
  import opened Lists

  /** One portfolio entry; `imageUrl` is the path of the imported asset. */
  datatype Item = Item(title: string, desc: string, imageUrl: string, featured: bool, tag: string)

  const ImageA: string := "../assets/AdobeStock_1215968101.jpeg"
  const ImageB: string := "../assets/AdobeStock_1221806902.jpeg"
  const ImageC: string := "../assets/AdobeStock_1234862083.jpeg"

  /** The page's fixed list of projects. */
  const PortfolioItems: seq<Item> := [
    Item("SYNAPSE AI", "Predictive market analysis with 99% accuracy. FinTech meets deep learning.",
         ImageA, true, "AI & Data"),
    Item("GEO-CHARGE", "Global rollout of scalable, off-grid renewable energy infrastructure.",
         ImageB, false, "GreenTech"),
    Item("LEDGER-X", "Decentralized corporate finance platform based on quantum-resistant blockchain.",
         ImageC, false, "FinTech"),
    Item("BioCode", "Genomic sequencing accelerator reducing drug discovery time by 40%.",
         ImageA, false, "HealthTech"),
    Item("AetherNet", "Secured mesh network for military and high-security communication.",
         ImageB, false, "Security")
  ]

  predicate IsFeatured(item: Item) { item.featured }

  predicate NotFeatured(item: Item) { !item.featured }

  /** The project shown large: the first featured one, or else the first
      project of all; `None` (JavaScript's `undefined`) for an empty list. */
  function FeaturedItem(items: seq<Item>): (r: Option<Item>)
    ensures r.None? <==> items == []
    ensures (exists i :: 0 <= i < |items| && items[i].featured) ==>
      exists i :: 0 <= i < |items| && items[i].featured && r == Some(items[i])
                  && forall j :: 0 <= j < i ==> !items[j].featured
    ensures items != [] && (forall i :: 0 <= i < |items| ==> !items[i].featured) ==>
      r == Some(items[0])
  {
    match Find(items, IsFeatured)
    case Some(item) => Some(item)
    case None => if |items| > 0 then Some(items[0]) else None
  }

  /** The projects listed below the featured one: every non-featured
      project, in list order. */
  function OtherItems(items: seq<Item>): (r: seq<Item>)
    ensures forall it :: it in r <==> it in items && !it.featured
  {
    FilterMembers(items, NotFeatured);
    Filter(items, NotFeatured)
  }

  /** `OtherItems` keeps the relative order of the items it keeps. */
  lemma OtherItemsAppend(a: seq<Item>, b: seq<Item>)
    ensures OtherItems(a + b) == OtherItems(a) + OtherItems(b)
  {
    FilterAppend(a, b, NotFeatured);
  }

  /** A featured item shown large is never listed again below. */
  lemma FeaturedNotInOthers(items: seq<Item>, k: nat)
    requires k < |items| && items[k].featured
    ensures FeaturedItem(items).Some? && FeaturedItem(items).value.featured
    ensures FeaturedItem(items).value !in OtherItems(items)
  {
  }

  /** With nothing featured, the first item is shown large and also listed
      below: the whole list is repeated as the "other" items. */
  lemma NoFeaturedFirstTwice(items: seq<Item>)
    requires items != []
    requires forall i :: 0 <= i < |items| ==> !items[i].featured
    ensures FeaturedItem(items) == Some(items[0])
    ensures OtherItems(items) == items
    ensures items[0] in OtherItems(items)
  {
    FilterAll(items, NotFeatured);
  }

  /** A featured item after the first featured one, and different from it,
      is neither shown large nor listed below. */
  lemma LaterFeaturedDropped(items: seq<Item>, i: nat, j: nat)
    requires i < j < |items|
    requires items[i].featured && forall k :: 0 <= k < i ==> !items[k].featured
    requires items[j].featured && items[j] != items[i]
    ensures FeaturedItem(items) == Some(items[i])
    ensures FeaturedItem(items) != Some(items[j])
    ensures items[j] !in OtherItems(items)
  {
  }

  function Titles(items: seq<Item>): (r: seq<string>)
    ensures |r| == |items| && forall i :: 0 <= i < |items| ==> r[i] == items[i].title
  {
    if items == [] then [] else [items[0].title] + Titles(items[1..])
  }

  /** When only the first item is featured, it is shown large and the rest
      follow unchanged. */
  lemma {:induction false} FirstOnlyFeatured(items: seq<Item>)
    requires items != [] && items[0].featured
    requires forall i :: 1 <= i < |items| ==> !items[i].featured
    ensures FeaturedItem(items) == Some(items[0])
    ensures OtherItems(items) == items[1..]
  {
    assert items == [items[0]] + items[1..];
    OtherItemsAppend([items[0]], items[1..]);
    FilterSingleton(items[0], NotFeatured);
    FilterAll(items[1..], NotFeatured);
  }

  /** On the page's own list, SYNAPSE AI is shown large and the four
      others follow in list order. */
  lemma PortfolioSplit()
    ensures FeaturedItem(PortfolioItems) == Some(PortfolioItems[0])
    ensures FeaturedItem(PortfolioItems).value.title == "SYNAPSE AI"
    ensures Titles(OtherItems(PortfolioItems)) == ["GEO-CHARGE", "LEDGER-X", "BioCode", "AetherNet"]
  {
    FirstOnlyFeatured(PortfolioItems);
  }
}
