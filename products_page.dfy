/** The product list page of the React client: the category buttons are
    built from the fetched products, and the grid shows the products of the
    chosen category. A category is a nullable column, so a product without
    one contributes `null` to the buttons. */
module ProductsPage {
  import opened Base
  import opened PublicProducts

  const All: Option<string> := Some("all")

  /** The category of every product, in list order. */
  function CategoriesOf(products: seq<ListedProduct>): (r: seq<Option<string>>)
    ensures |r| == |products|
    ensures forall k :: 0 <= k < |products| ==> r[k] == products[k].category
  {
    seq(|products|, k requires 0 <= k < |products| => products[k].category)
  }

  /** The buttons: `"all"`, then each category once, in first-seen order
      (`Array.from` over a `Set` yields insertion order). */
  function CategoryButtons(products: seq<ListedProduct>): seq<Option<string>> {
    [All] + Distinct(CategoriesOf(products))
  }

  /** The loop that fills `categorySet`: `order` is the set's insertion order. */
  method CollectCategories(products: seq<ListedProduct>) returns (buttons: seq<Option<string>>)
    ensures buttons == CategoryButtons(products)
  {
    var seen: set<Option<string>> := {};
    var order: seq<Option<string>> := [];
    var i := 0;
    while i < |products|
      invariant 0 <= i <= |products|
      invariant order == Distinct(CategoriesOf(products[..i]))
      invariant forall x :: x in seen <==> x in order
    {
      var c := products[i].category;
      assert CategoriesOf(products[..i + 1]) == CategoriesOf(products[..i]) + [c];
      if c !in seen {
        seen := seen + {c};
        order := order + [c];
      }
      i := i + 1;
    }
    assert products[..i] == products;
    buttons := [All] + order;
  }

  /** The list of buttons names every category of the list exactly once
      after `"all"`. */
  lemma ButtonsSound(products: seq<ListedProduct>)
    ensures CategoryButtons(products)[0] == All
    ensures forall c :: c in CategoryButtons(products)[1..] <==> exists p :: p in products && p.category == c
    ensures forall i, j :: 1 <= i < j < |CategoryButtons(products)| ==>
      CategoryButtons(products)[i] != CategoryButtons(products)[j]
  {
    var b := CategoryButtons(products);
    assert b[1..] == Distinct(CategoriesOf(products));
    forall c ensures c in b[1..] <==> exists p :: p in products && p.category == c {
      if c in b[1..] {
        var k :| 0 <= k < |products| && CategoriesOf(products)[k] == c;
        assert products[k] in products;
      }
      if p :| p in products && p.category == c {
        var k :| 0 <= k < |products| && products[k] == p;
        assert CategoriesOf(products)[k] == c;
      }
    }
  }

  /** `selectedCategory === "all" ? products : products.filter(p => p.category === selectedCategory)` */
  function Visible(products: seq<ListedProduct>, selected: Option<string>): (r: seq<ListedProduct>)
    ensures selected == All ==> r == products
    ensures selected != All ==> forall p :: p in r <==> p in products && p.category == selected
  {
    if selected == All then products
    else Filter(products, (p: ListedProduct) => p.category == selected)
  }

  /** A category shows each of its products as often as the list holds it,
      and any order the list is in (the server's, say) carries over. */
  lemma VisibleInOrder(products: seq<ListedProduct>, selected: Option<string>,
                       before: (ListedProduct, ListedProduct) -> bool)
    requires selected != All
    requires forall i, j :: 0 <= i < j < |products| ==> before(products[i], products[j])
    ensures forall p :: p in products && p.category == selected ==>
      multiset(Visible(products, selected))[p] == multiset(products)[p]
    ensures multiset(Visible(products, selected)) <= multiset(products)
    ensures forall i, j :: 0 <= i < j < |Visible(products, selected)| ==>
      before(Visible(products, selected)[i], Visible(products, selected)[j])
  {
    var p := (x: ListedProduct) => x.category == selected;
    FilterMultiset(products, p);
    FilterPairs(products, p, before);
  }

  /** The page's state. */
  class CatalogPage {
    var selected: Option<string>
    var products: seq<ListedProduct>
    var buttons: seq<Option<string>>

    /** `useState("all")`, `useState([])`, `useState(["all"])` */
    constructor ()
      ensures selected == All && products == [] && buttons == [All]
    {
      selected := All;
      products := [];
      buttons := [All];
    }

    /** The fetch effect: a response replaces the products and rebuilds the
        buttons; a failed fetch changes neither. */
    method Loaded(response: Option<seq<ListedProduct>>)
      modifies this
      ensures response.Some? ==> products == response.value && buttons == CategoryButtons(response.value)
      ensures response.None? ==> products == old(products) && buttons == old(buttons)
      ensures selected == old(selected)
    {
      if response.Some? {
        products := response.value;
        buttons := CollectCategories(response.value);
      }
    }

    /** A click on a category button. */
    method Select(c: Option<string>)
      modifies this
      ensures selected == c && products == old(products) && buttons == old(buttons)
    {
      selected := c;
    }

    /** The products on screen. */
    function Shown(): seq<ListedProduct>
      reads this
    {
      Visible(products, selected)
    }
  }
}
