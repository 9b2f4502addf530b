/** The router of routes/productRoutes.js: four GET registrations, from a request path
    to the controller handler that answers it. */
module ProductRoutes {
  import opened Wrappers
  import opened KnittedItemModel
  import opened Storage
  import opened KnittedItemController
  import Decimal

  /** The handler a path is registered to; KnittedItemById carries the `:id` capture. */
  datatype Route = AllKnittedItems | KnittedItemById(id: string) | About

  const DetailPrefix: string := "/products/"

  /** A value `:id` can capture: one non-empty path segment. */
  predicate IsSegment(seg: string)
  {
    seg != [] && '/' !in seg
  }

  /** The registered handler for a GET of path, or None when this router has no route. */
  function Dispatch(path: string): (r: Option<Route>)
    ensures r == Some(AllKnittedItems) <==> path == "/" || path == "/products"
    ensures r == Some(About) <==> path == "/about"
    ensures r.Some? && r.value.KnittedItemById? ==>
      path == DetailPrefix + r.value.id && IsSegment(r.value.id)
    ensures r.None? <==>
      && path != "/" && path != "/products" && path != "/about"
      && !(|DetailPrefix| < |path| && path[..|DetailPrefix|] == DetailPrefix && IsSegment(path[|DetailPrefix|..]))
  {
    if path == "/" || path == "/products" then Some(AllKnittedItems)
    else if path == "/about" then Some(About)
    else if |DetailPrefix| < |path| && path[..|DetailPrefix|] == DetailPrefix && IsSegment(path[|DetailPrefix|..]) then
      assert path == DetailPrefix + path[|DetailPrefix|..];
      Some(KnittedItemById(path[|DetailPrefix|..]))
    else None
  }

  /** `/products/<seg>` reaches getKnittedItemById with params.id == seg, for every
      single segment seg, and nothing else does. */
  lemma DispatchById(path: string, seg: string)
    ensures Dispatch(path) == Some(KnittedItemById(seg)) <==> path == DetailPrefix + seg && IsSegment(seg)
  {
  }

  /** The response sent for a GET of path; None when the router does not handle it. */
  function Respond(path: string, s: Store, referer: Option<string>): (r: Option<Response>)
    ensures r.None? <==> Dispatch(path).None?
    ensures r.Some? && r.value.Status() == 404 ==> Dispatch(path).value.KnittedItemById?
    ensures r.Some? && r.value.Status() == 500 ==> s.failing != {}
  {
    match Dispatch(path)
    case None => None
    case Some(AllKnittedItems) => Some(GetAllKnittedItems(s))
    case Some(KnittedItemById(id)) => Some(GetKnittedItemById(s, id, referer))
    case Some(About) =>
      AboutFailsIff(s);
      Some(AboutResponse(s))
  }

  /** `/` and `/products` share a handler, so they answer alike for the same store. */
  lemma RootAndProductsAgree(s: Store, referer: Option<string>)
    ensures Respond("/", s, referer) == Respond("/products", s, referer) == Some(GetAllKnittedItems(s))
  {
  }

  /** The path local of an item's page routes back to that item's page. */
  lemma DetailPathRoundTrip(s: Store, it: Item, referer: Option<string>)
    requires ValidStore(s) && it in s.rows
    requires FindByPkQuery(Decimal.ToDecimal(it.id)) !in s.failing
    ensures Respond(DetailPath(it), s, referer)
         == Some(Render("product-detail", DetailLocals(it.name, it, DetailPath(it), PreviousPage(referer))))
  {
  }

  /** The router as Express runs it: dispatch, then await the matching handler. */
  method Serve(path: string, s: Store, referer: Option<string>) returns (r: Option<Response>)
    ensures r == Respond(path, s, referer)
  {
    match Dispatch(path)
    case None =>
      r := None;
    case Some(AllKnittedItems) =>
      r := Some(GetAllKnittedItems(s));
    case Some(KnittedItemById(id)) =>
      r := Some(GetKnittedItemById(s, id, referer));
    case Some(About) =>
      var page := GetAbout(s);
      r := Some(page);
  }
}
