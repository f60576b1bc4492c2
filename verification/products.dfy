/**
 The product page of the cabin section: the demo product table, its search
 and range (gamme) filter, and the colour of a product's range badge.
 */
module Products {
  import opened Options
  import opened Strings
  import opened Seqs

  /** A product of the demo table; `prix` is in euros. */
  datatype Product = Product(id: nat, name: string, gamme: string, category: string, prix: nat)

  /** A product range, with the colour class of its button and card. */
  datatype Gamme = Gamme(id: string, name: string, color: string)

  /** The four ranges, in display order. */
  const Gammes: seq<Gamme> := [
    Gamme("REFRESH", "Refresh", "bg-red-500"),
    Gamme("GLOW", "Glow", "bg-green-500"),
    Gamme("PURE", "Pure", "bg-blue-500"),
    Gamme("TIGHT", "Tight", "bg-purple-500")
  ]

  /** The demo products. */
  const DemoProducts: seq<Product> := [
    Product(1, "Cleansing Gel PURE", "PURE", "Nettoyant", 32),
    Product(2, "Essence Vitaminee GLOW", "GLOW", "Essence", 45),
    Product(3, "Serum Retinol REFRESH", "REFRESH", "Serum", 65),
    Product(4, "Creme Lift TIGHT", "TIGHT", "Creme", 78),
    Product(5, "Masque Hydratant PURE", "PURE", "Masque", 38),
    Product(6, "Ampoule EGF REFRESH", "REFRESH", "Ampoule", 89)
  ]

  /** The name contains the search, ignoring case. */
  predicate MatchSearch(p: Product, search: string) {
    Contains(ToLower(p.name), ToLower(search))
  }

  /** No range selected (`null`, or an empty id, which is just as falsy), or the product's range is the selected one. */
  predicate MatchGamme(p: Product, selected: Option<string>) {
    selected.None? || selected.value == "" || p.gamme == selected.value
  }

  /** `filteredProducts`: the products matching both the search and the range, in table order. */
  function FilterProducts(products: seq<Product>, search: string, selected: Option<string>): (r: seq<Product>)
    ensures IsSubsequence(r, products)
    ensures forall p :: p in r <==> p in products && MatchSearch(p, search) && MatchGamme(p, selected)
  {
    FilterIsSubsequence(products, (p: Product) => MatchSearch(p, search) && MatchGamme(p, selected));
    FilterMembers(products, (p: Product) => MatchSearch(p, search) && MatchGamme(p, selected));
    Filter(products, (p: Product) => MatchSearch(p, search) && MatchGamme(p, selected))
  }

  /** Without a range only the search applies. */
  lemma NoGammeSearchOnly(products: seq<Product>, search: string)
    ensures FilterProducts(products, search, None) == Filter(products, (p: Product) => MatchSearch(p, search))
  {
    FilterSame(products, (p: Product) => MatchSearch(p, search) && MatchGamme(p, None), (p: Product) => MatchSearch(p, search));
  }

  /** With an empty search every product of the selected range is kept. */
  lemma EmptySearchGammeOnly(products: seq<Product>, g: string)
    ensures FilterProducts(products, "", Some(g)) == Filter(products, (p: Product) => MatchGamme(p, Some(g)))
  {
    assert ToLower("") == "";
    forall p: Product
      ensures MatchSearch(p, "")
    {
      ContainsEmpty(ToLower(p.name));
    }
    FilterSame(products, (p: Product) => MatchSearch(p, "") && MatchGamme(p, Some(g)), (p: Product) => MatchGamme(p, Some(g)));
  }

  /** Filtering with two predicates that agree gives the same list. */
  lemma {:induction false} FilterSame<T>(s: seq<T>, p: T -> bool, q: T -> bool)
    requires forall x :: p(x) == q(x)
    ensures Filter(s, p) == Filter(s, q)
    decreases |s|
  {
    if |s| > 0 {
      FilterSame(s[1..], p, q);
    }
  }

  /** The search looks at the name only, never at the category or the range. */
  lemma SearchIgnoresCategoryAndGamme(p: Product, search: string, category: string, gamme: string)
    ensures MatchSearch(p.(category := category, gamme := gamme), search) == MatchSearch(p, search)
  {
  }

  /** Selecting REFRESH with an empty search shows the serum and the ampoule, so the heading counts 2. */
  lemma RefreshRange()
    ensures FilterProducts(DemoProducts, "", Some("REFRESH")) == [DemoProducts[2], DemoProducts[5]]
    ensures |FilterProducts(DemoProducts, "", Some("REFRESH"))| == 2
  {
    RefreshOfRanges(DemoProducts);
  }

  /** A six-product table whose ranges are those of the demo table keeps its third and sixth products for REFRESH. */
  lemma RefreshOfRanges(d: seq<Product>)
    requires |d| == 6
    requires d[0].gamme == "PURE" && d[1].gamme == "GLOW" && d[2].gamme == "REFRESH"
    requires d[3].gamme == "TIGHT" && d[4].gamme == "PURE" && d[5].gamme == "REFRESH"
    ensures FilterProducts(d, "", Some("REFRESH")) == [d[2], d[5]]
  {
    EmptySearchGammeOnly(d, "REFRESH");
    var keep := (p: Product) => MatchGamme(p, Some("REFRESH"));
    assert d[6..] == [];
    FilterKeep(d, keep, 5);
    FilterSkip(d, keep, 4);
    FilterSkip(d, keep, 3);
    FilterKeep(d, keep, 2);
    FilterSkip(d, keep, 1);
    FilterSkip(d, keep, 0);
    assert d[0..] == d;
  }

  /** The colour class of a product's range badge: red, green and blue for three ranges, purple for any other. */
  function GammeBadge(gamme: string): (r: string)
    ensures r in {"bg-red-500", "bg-green-500", "bg-blue-500", "bg-purple-500"}
    ensures gamme == "REFRESH" <==> r == "bg-red-500"
    ensures gamme == "GLOW" <==> r == "bg-green-500"
    ensures gamme == "PURE" <==> r == "bg-blue-500"
    ensures gamme !in {"REFRESH", "GLOW", "PURE"} <==> r == "bg-purple-500"
  {
    if gamme == "REFRESH" then "bg-red-500"
    else if gamme == "GLOW" then "bg-green-500"
    else if gamme == "PURE" then "bg-blue-500"
    else "bg-purple-500"
  }

  /** A product's badge has the colour of its range's button. */
  lemma BadgeMatchesGamme(p: Product)
    requires p in DemoProducts
    ensures exists g :: g in Gammes && g.id == p.gamme && g.color == GammeBadge(p.gamme)
  {
    if p.gamme == "REFRESH" { assert Gammes[0].id == p.gamme; }
    else if p.gamme == "GLOW" { assert Gammes[1].id == p.gamme; }
    else if p.gamme == "PURE" { assert Gammes[2].id == p.gamme; }
    else { assert Gammes[3].id == p.gamme; }
  }

  /** The badge colours of distinct known ranges differ. */
  lemma BadgesDistinct(i: nat, j: nat)
    requires i < j < |Gammes|
    ensures GammeBadge(Gammes[i].id) != GammeBadge(Gammes[j].id)
  {
  }
}
