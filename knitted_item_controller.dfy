/** The three request handlers of controllers/knittedItemController.js. Each maps the
    results of its storage queries (and, for the detail page, the request) to the
    response it sends: a rendered view with its locals, a 404 page, or a 500 with a
    fixed body. Every exception thrown by a query is caught and becomes the 500. */
module KnittedItemController {
  import opened Wrappers
  import opened KnittedItemModel
  import opened Storage
  import Decimal

  const ServerErrorBody: string := "Ошибка сервера"
  const ListingTitle: string := "Все товары"
  const NotFoundTitle: string := "Товар не найдден"
  const AboutTitle: string := "О нас | ShopTime"

  /** The data object passed to res.render, one shape per view. */
  datatype Locals =
    | ListingLocals(pageTitle: string, knittedItems: seq<Item>, path: string)
    | DetailLocals(pageTitle: string, knittedItem: Item, path: string, previousPage: string)
    | AboutLocals(pageTitle: string, path: string, topItems: seq<Item>)

  datatype Response =
    | Render(view: string, locals: Locals)          // res.render(view, locals), status 200
    | NotFound404(view: string, pageTitle: string)  // res.status(404).render(view, {pageTitle})
    | Error500(body: string)                        // res.status(500).send(body)
  {
    function Status(): nat
    {
      match this
      case Render(_, _) => 200
      case NotFound404(_, _) => 404
      case Error500(_) => 500
    }
  }

  /** getAllKnittedItems: the listing page shows the stored rows as findAll returns them. */
  function GetAllKnittedItems(s: Store): (r: Response)
    ensures r.Error500? <==> FindAllQuery in s.failing
    ensures r.Error500? ==> r.body == ServerErrorBody
    ensures !r.Error500? ==> r == Render("products", ListingLocals(ListingTitle, s.rows, "/"))
  {
    match FindAll(s)
    case Failure(_) => Error500(ServerErrorBody)
    case Success(items) => Render("products", ListingLocals(ListingTitle, items, "/"))
  }

  /** req.get('Referer') || '/': an absent or empty header falls back to the root. */
  function PreviousPage(referer: Option<string>): (page: string)
    ensures page != []
    ensures referer.Some? && referer.value != [] ==> page == referer.value
    ensures referer.None? || referer.value == [] ==> page == "/"
  {
    match referer
    case Some(h) => if h != [] then h else "/"
    case None => "/"
  }

  /** The navigation path of an item's page, built from its stored id. */
  function DetailPath(it: Item): (path: string)
    ensures |path| > 10 && path[..10] == "/products/"
    ensures Decimal.ParseDecimal(path[10..]) == Some(it.id)
    ensures Decimal.AllDigits(path[10..]) && (it.id > 0 ==> path[10] != '0')
  {
    Decimal.ParseToDecimal(it.id);
    var path := "/products/" + Decimal.ToDecimal(it.id);
    assert path[10..] == Decimal.ToDecimal(it.id);
    path
  }

  /** getKnittedItemById: 500 exactly when the lookup throws, 404 exactly when no row
      has the requested key, otherwise the detail page of the stored row found. */
  function GetKnittedItemById(s: Store, id: string, referer: Option<string>): (r: Response)
    ensures r.Error500? <==> FindByPkQuery(id) in s.failing
    ensures r.Error500? ==> r.body == ServerErrorBody
    ensures r.NotFound404? <==>
      FindByPkQuery(id) !in s.failing
      && forall k :: 0 <= k < |s.rows| ==> Decimal.ParseDecimal(id) != Some(s.rows[k].id)
    ensures r.NotFound404? ==> r == NotFound404("404", NotFoundTitle)
    ensures r.Render? ==>
      && r.view == "product-detail"
      && r.locals.DetailLocals?
      && var it := r.locals.knittedItem;
         && it in s.rows
         && Decimal.ParseDecimal(id) == Some(it.id)
         && r.locals == DetailLocals(it.name, it, DetailPath(it), PreviousPage(referer))
  {
    match FindByPk(s, id)
    case Failure(_) => Error500(ServerErrorBody)
    case Success(None) => NotFound404("404", NotFoundTitle)
    case Success(Some(it)) =>
      Render("product-detail", DetailLocals(it.name, it, DetailPath(it), PreviousPage(referer)))
  }

  /** Asking for a stored item by its printed id renders that very item. */
  lemma DetailOfStoredItem(s: Store, it: Item, referer: Option<string>)
    requires ValidStore(s) && it in s.rows
    requires FindByPkQuery(Decimal.ToDecimal(it.id)) !in s.failing
    ensures GetKnittedItemById(s, Decimal.ToDecimal(it.id), referer)
         == Render("product-detail", DetailLocals(it.name, it, DetailPath(it), PreviousPage(referer)))
  {
  }

  /** The path local comes from the stored id, not from the request: "07" shows item 7
      under "/products/7". */
  lemma DetailPathIsCanonical(s: Store, referer: Option<string>)
    requires |s.rows| == 1 && s.rows[0].id == 7
    requires FindByPkQuery("07") !in s.failing
    ensures GetKnittedItemById(s, "07", referer).Render?
    ensures GetKnittedItemById(s, "07", referer).locals.path == "/products/7"
  {
  }

  /** The for-loop of getAbout over the categories cats: look up the newest row of each,
      push the ones found, and stop at the first lookup that throws. */
  function TopItems(s: Store, cats: seq<Option<string>>): (r: Result<seq<Item>, StorageError>)
    ensures r.Success? ==> |r.value| <= |cats|
    ensures r.Failure? ==> exists k :: 0 <= k < |cats| && r.error == QueryFailed(LatestQuery(cats[k]))
  {
    if cats == [] then Success([])
    else
      match TopItems(s, cats[..|cats| - 1])
      case Failure(e) => Failure(e)
      case Success(items) =>
        match LatestInCategory(s, cats[|cats| - 1])
        case Failure(e) => Failure(e)
        case Success(None) => Success(items)
        case Success(Some(it)) => Success(items + [it])
  }

  /** What getAbout sends for store s. */
  function AboutResponse(s: Store): (r: Response)
    ensures !r.NotFound404?
    ensures r.Error500? ==> r.body == ServerErrorBody
    ensures r.Render? ==>
      r.view == "about" && r.locals.AboutLocals? && r.locals.pageTitle == AboutTitle && r.locals.path == "/about"
  {
    match DistinctCategories(s)
    case Failure(_) => Error500(ServerErrorBody)
    case Success(cats) =>
      match TopItems(s, cats)
      case Failure(_) => Error500(ServerErrorBody)
      case Success(items) => Render("about", AboutLocals(AboutTitle, "/about", items))
  }

  /** The loop aborts exactly when the lookup of one of the categories throws. */
  lemma {:induction false} TopItemsFailsIff(s: Store, cats: seq<Option<string>>)
    ensures TopItems(s, cats).Failure? <==>
      exists k :: 0 <= k < |cats| && LatestQuery(cats[k]) in s.failing
  {
    if cats != [] {
      var init := cats[..|cats| - 1];
      TopItemsFailsIff(s, init);
      if exists k :: 0 <= k < |init| && LatestQuery(init[k]) in s.failing {
        var k :| 0 <= k < |init| && LatestQuery(init[k]) in s.failing;
        assert cats[k] == init[k];
      }
      if exists k :: 0 <= k < |cats| && LatestQuery(cats[k]) in s.failing {
        var k :| 0 <= k < |cats| && LatestQuery(cats[k]) in s.failing;
        if k < |init| {
          assert init[k] == cats[k];
        }
      }
    }
  }

  /** Index of the first occurrence of x in xs. */
  function Position<T(==)>(xs: seq<T>, x: T): (p: nat)
    requires x in xs
    ensures p < |xs| && xs[p] == x
    ensures forall i :: 0 <= i < p ==> xs[i] != x
  {
    if xs[0] == x then 0 else 1 + Position(xs[1..], x)
  }

  lemma PositionInPrefix<T>(xs: seq<T>, y: T, x: T)
    requires x in xs
    ensures x in xs + [y] && Position(xs + [y], x) == Position(xs, x)
  {
    var p := Position(xs, x);
    var q := Position(xs + [y], x);
    assert (xs + [y])[p] == x;
    assert xs[q] == x || q == |xs|;
  }

  /** Every item of t is a newest row of its own category, and that category is in cats. */
  predicate NewestOfListed(rows: seq<Item>, cats: seq<Option<string>>, t: seq<Item>)
  {
    forall k :: 0 <= k < |t| ==> t[k].category in cats && IsLatestIn(rows, t[k].category, t[k])
  }

  /** The categories of t occur in cats in strictly increasing positions. */
  predicate InCategoryOrder(cats: seq<Option<string>>, t: seq<Item>)
    requires forall k :: 0 <= k < |t| ==> t[k].category in cats
  {
    forall j, k :: 0 <= j < k < |t| ==> Position(cats, t[j].category) < Position(cats, t[k].category)
  }

  lemma NewestOfListedExtend(rows: seq<Item>, init: seq<Option<string>>, c: Option<string>, t0: seq<Item>)
    requires NewestOfListed(rows, init, t0)
    ensures NewestOfListed(rows, init + [c], t0)
  {
  }

  /** Appending category c after init keeps the earlier items in order, and the items
      of category c pushed for it come after them. */
  lemma InCategoryOrderExtend(init: seq<Option<string>>, c: Option<string>, t0: seq<Item>, pushed: seq<Item>)
    requires c !in init
    requires forall k :: 0 <= k < |t0| ==> t0[k].category in init
    requires InCategoryOrder(init, t0)
    requires |pushed| <= 1 && forall k :: 0 <= k < |pushed| ==> pushed[k].category == c
    ensures forall k :: 0 <= k < |t0 + pushed| ==> (t0 + pushed)[k].category in init + [c]
    ensures InCategoryOrder(init + [c], t0 + pushed)
  {
    var cats := init + [c];
    forall k | 0 <= k < |t0|
      ensures Position(cats, t0[k].category) == Position(init, t0[k].category) < |init|
    {
      PositionInPrefix(init, c, t0[k].category);
    }
    assert Position(cats, c) == |init| by {
      assert cats[|init|] == c;
    }
  }

  /** A lookup that finds nothing is skipped and the loop goes on: every listed category
      that has a stored row contributes an item. */
  lemma {:induction false} TopItemsCovers(s: Store, cats: seq<Option<string>>)
    requires TopItems(s, cats).Success?
    ensures forall j :: 0 <= j < |cats| && HasCategory(s.rows, cats[j]) ==>
      exists k :: 0 <= k < |TopItems(s, cats).value| && TopItems(s, cats).value[k].category == cats[j]
  {
    if cats != [] {
      var init := cats[..|cats| - 1];
      var c := cats[|cats| - 1];
      TopItemsCovers(s, init);
      var t0 := TopItems(s, init).value;
      var t := TopItems(s, cats).value;
      assert t[..|t0|] == t0;
      forall j | 0 <= j < |cats| && HasCategory(s.rows, cats[j])
        ensures exists k :: 0 <= k < |t| && t[k].category == cats[j]
      {
        if j < |init| {
          assert init[j] == cats[j];
          var k :| 0 <= k < |t0| && t0[k].category == init[j];
          assert t[k] == t0[k];
        } else {
          assert t == t0 + [Latest(s.rows, c).value];
          assert t[|t0|].category == cats[j];
        }
      }
    }
  }

  /** Over any list of distinct categories, the loop pushes exactly one item for each
      category that has a stored row and none for the others, in category order, each a
      newest row of its category. */
  lemma {:induction false} TopItemsFollowCategories(s: Store, cats: seq<Option<string>>)
    requires NoDuplicates(cats)
    requires TopItems(s, cats).Success?
    ensures |TopItems(s, cats).value| <= |cats|
    ensures NewestOfListed(s.rows, cats, TopItems(s, cats).value)
    ensures InCategoryOrder(cats, TopItems(s, cats).value)
    ensures forall j :: 0 <= j < |cats| && HasCategory(s.rows, cats[j]) ==>
      exists k :: 0 <= k < |TopItems(s, cats).value| && TopItems(s, cats).value[k].category == cats[j]
  {
    TopItemsCovers(s, cats);
    if cats != [] {
      var init := cats[..|cats| - 1];
      var c := cats[|cats| - 1];
      assert cats == init + [c];
      assert c !in init;
      assert NoDuplicates(init);
      TopItemsFollowCategories(s, init);
      var t0 := TopItems(s, init).value;
      NewestOfListedExtend(s.rows, init, c, t0);
      var pushed := match Latest(s.rows, c) case Some(it) => [it] case None => [];
      assert TopItems(s, cats).value == t0 + pushed;
      InCategoryOrderExtend(init, c, t0, pushed);
    }
  }

  /** When every category has a stored row (as the grouping query guarantees), nothing
      is skipped: the k-th item pushed belongs to the k-th category. */
  lemma {:induction false} TopItemsComplete(s: Store, cats: seq<Option<string>>)
    requires forall k :: 0 <= k < |cats| ==> HasCategory(s.rows, cats[k])
    requires TopItems(s, cats).Success?
    ensures |TopItems(s, cats).value| == |cats|
    ensures forall k :: 0 <= k < |cats| ==> TopItems(s, cats).value[k].category == cats[k]
  {
    if cats != [] {
      var init := cats[..|cats| - 1];
      assert forall k :: 0 <= k < |init| ==> init[k] == cats[k];
      TopItemsComplete(s, init);
    }
  }

  /** getAbout answers 500, never 404, exactly when the grouping query or the lookup of
      one of its categories throws; otherwise it renders the about view. */
  lemma AboutFailsIff(s: Store)
    ensures !AboutResponse(s).NotFound404?
    ensures AboutResponse(s).Error500? ==> AboutResponse(s).body == ServerErrorBody
    ensures AboutResponse(s).Render? ==>
      AboutResponse(s).view == "about" && AboutResponse(s).locals.AboutLocals?
      && AboutResponse(s).locals.pageTitle == AboutTitle && AboutResponse(s).locals.path == "/about"
    ensures AboutResponse(s).Error500? <==>
      || CategoriesQuery in s.failing
      || exists k :: 0 <= k < |Categories(s.rows)| && LatestQuery(Categories(s.rows)[k]) in s.failing
  {
    if CategoriesQuery !in s.failing {
      assert DistinctCategories(s) == Success(Categories(s.rows));
      TopItemsFailsIff(s, Categories(s.rows));
    }
  }

  /** The about page shows, for every category of the stored rows (the null category
      included), exactly one item: a newest row of that category; in the order of the
      grouping query. */
  lemma AboutShowsLatestPerCategory(s: Store)
    requires AboutResponse(s).Render?
    ensures var t := AboutResponse(s).locals.topItems;
      && |t| == |Categories(s.rows)|
      && (forall k :: 0 <= k < |t| ==> t[k].category == Categories(s.rows)[k])
      && (forall k :: 0 <= k < |t| ==> IsLatestIn(s.rows, t[k].category, t[k]))
      && (forall i, j :: 0 <= i < j < |t| ==> t[i].category != t[j].category)
      && (forall k :: 0 <= k < |s.rows| ==> exists j :: 0 <= j < |t| && t[j].category == s.rows[k].category)
  {
    var cats := Categories(s.rows);
    TopItemsComplete(s, cats);
    TopItemsFollowCategories(s, cats);
    var t := AboutResponse(s).locals.topItems;
    forall k | 0 <= k < |s.rows|
      ensures exists j :: 0 <= j < |t| && t[j].category == s.rows[k].category
    {
      var j := Position(cats, s.rows[k].category);
      assert t[j].category == s.rows[k].category;
    }
  }

  /** Rows without a category are not filtered out: they form a group of their own and
      one of them is shown. */
  lemma NullCategoryIsShown(s: Store, k: nat)
    requires k < |s.rows| && s.rows[k].category.None?
    requires AboutResponse(s).Render?
    ensures exists j ::
      0 <= j < |AboutResponse(s).locals.topItems| && AboutResponse(s).locals.topItems[j].category.None?
  {
    AboutShowsLatestPerCategory(s);
  }

  /** Of two rows in one category, the newer one is shown, and only it. */
  lemma NewerItemWins(a: Item, b: Item)
    requires a.category == b.category && a.createdAt < b.createdAt
    ensures AboutResponse(Store([a, b], {})) == Render("about", AboutLocals(AboutTitle, "/about", [b]))
  {
    var rows := [a, b];
    assert rows[..1] == [a] && [a][..0] == [];
    assert Categories([a]) == [a.category];
    assert Categories(rows) == [a.category];
    assert Latest(rows, a.category) == Some(b);
    var st := Store(rows, {});
    var cats := [a.category];
    assert cats[..|cats| - 1] == [];
    assert TopItems(st, cats[..|cats| - 1]) == Success([]);
    assert LatestInCategory(st, cats[|cats| - 1]) == Success(Some(b));
    assert TopItems(st, cats) == Success([] + [b]);
    assert [] + [b] == [b];
    assert DistinctCategories(st) == Success(cats);
  }

  /** An empty table gives an empty listing, an empty about page and a 404 for any id. */
  lemma EmptyTable(id: string, referer: Option<string>)
    ensures GetAllKnittedItems(Store([], {})).locals.knittedItems == []
    ensures AboutResponse(Store([], {})) == Render("about", AboutLocals(AboutTitle, "/about", []))
    ensures GetKnittedItemById(Store([], {}), id, referer) == NotFound404("404", NotFoundTitle)
  {
  }

  /** getAbout as the source runs it: a loop pushing into topItems, aborting on the
      first query that throws. */
  method GetAbout(s: Store) returns (r: Response)
    ensures r == AboutResponse(s)
  {
    var grouped := DistinctCategories(s);
    if grouped.Failure? {
      return Error500(ServerErrorBody);
    }
    var categories := grouped.value;
    var topItems: seq<Item> := [];
    for i := 0 to |categories|
      invariant TopItems(s, categories[..i]) == Success(topItems)
    {
      assert categories[..i + 1][..i] == categories[..i];
      var item := LatestInCategory(s, categories[i]);
      if item.Failure? {
        TopItemsFailsIff(s, categories);
        return Error500(ServerErrorBody);
      }
      if item.value.Some? {
        topItems := topItems + [item.value.value];
      }
    }
    assert categories[..|categories|] == categories;
    r := Render("about", AboutLocals(AboutTitle, "/about", topItems));
  }
}
