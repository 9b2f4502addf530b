/** The part of Sequelize's model API the controller uses, over an abstract table:
    a snapshot of the stored rows and the set of queries the database fails to answer. */
module Storage {
  import opened Wrappers
  import opened KnittedItemModel
  import Decimal

  /** The queries the controller issues. */
  datatype Query =
    | FindAllQuery                                   // findAll()
    | FindByPkQuery(key: string)                     // findByPk(req.params.id)
    | CategoriesQuery                                // findAll({attributes: ['category'], group: ['category']})
    | LatestQuery(category: Option<string>)          // findOne({where: {category}, order: [['createdAt', 'DESC']]})

  /** A query that throws (connection lost, timeout, malformed result). */
  datatype StorageError = QueryFailed(query: Query)

  datatype Store = Store(rows: seq<Item>, failing: set<Query>)

  /** The table invariant: every row admitted by the schema, primary keys unique. */
  predicate ValidStore(s: Store)
  {
    && (forall k :: 0 <= k < |s.rows| ==> ValidItem(s.rows[k]))
    && (forall j, k :: 0 <= j < k < |s.rows| ==> s.rows[j].id != s.rows[k].id)
  }

  predicate HasCategory(rows: seq<Item>, c: Option<string>)
  {
    exists k :: 0 <= k < |rows| && rows[k].category == c
  }

  /** it is a stored row of category c created no earlier than any other row of c. */
  predicate IsLatestIn(rows: seq<Item>, c: Option<string>, it: Item)
  {
    && it in rows
    && it.category == c
    && forall k :: 0 <= k < |rows| && rows[k].category == c ==> rows[k].createdAt <= it.createdAt
  }

  function FindAll(s: Store): (r: Result<seq<Item>, StorageError>)
    ensures r.Failure? <==> FindAllQuery in s.failing
    ensures r.Success? ==> r.value == s.rows
  {
    if FindAllQuery in s.failing then Failure(QueryFailed(FindAllQuery)) else Success(s.rows)
  }

  /** The first row whose id is n. */
  function WithId(rows: seq<Item>, n: nat): (r: Option<Item>)
    ensures r.None? <==> forall k :: 0 <= k < |rows| ==> rows[k].id != n
    ensures r.Some? ==> r.value in rows && r.value.id == n
  {
    if rows == [] then None
    else if rows[0].id == n then Some(rows[0])
    else WithId(rows[1..], n)
  }

  /** findByPk on an integer key: a segment that is not a decimal numeral matches no row. */
  function FindByPk(s: Store, key: string): (r: Result<Option<Item>, StorageError>)
    ensures r.Failure? <==> FindByPkQuery(key) in s.failing
    ensures r == Success(None) <==>
      FindByPkQuery(key) !in s.failing
      && forall k :: 0 <= k < |s.rows| ==> Decimal.ParseDecimal(key) != Some(s.rows[k].id)
    ensures r.Success? && r.value.Some? ==>
      r.value.value in s.rows && Decimal.ParseDecimal(key) == Some(r.value.value.id)
  {
    if FindByPkQuery(key) in s.failing then Failure(QueryFailed(FindByPkQuery(key)))
    else
      match Decimal.ParseDecimal(key)
      case None => Success(None)
      case Some(n) => Success(WithId(s.rows, n))
  }

  /** Looking an item up by its printed id finds exactly that item. */
  lemma FindByPkStored(s: Store, it: Item)
    requires ValidStore(s) && it in s.rows
    requires FindByPkQuery(Decimal.ToDecimal(it.id)) !in s.failing
    ensures FindByPk(s, Decimal.ToDecimal(it.id)) == Success(Some(it))
  {
    Decimal.ParseToDecimal(it.id);
    var r := FindByPk(s, Decimal.ToDecimal(it.id));
    var j :| 0 <= j < |s.rows| && s.rows[j] == it;
    assert r.Success? && r.value.Some?;
    var k :| 0 <= k < |s.rows| && s.rows[k] == r.value.value;
    assert j == k;
  }

  /** No element occurs twice in xs. */
  predicate NoDuplicates<T(==)>(xs: seq<T>)
  {
    forall i, j :: 0 <= i < j < |xs| ==> xs[i] != xs[j]
  }

  /** The values of the category column, each once, in order of first occurrence. */
  function Categories(rows: seq<Item>): (cats: seq<Option<string>>)
    ensures NoDuplicates(cats)
    ensures forall k :: 0 <= k < |rows| ==> rows[k].category in cats
    ensures forall j :: 0 <= j < |cats| ==> HasCategory(rows, cats[j])
  {
    if rows == [] then []
    else
      var init := rows[..|rows| - 1];
      var c := rows[|rows| - 1].category;
      var prior := Categories(init);
      assert forall j :: 0 <= j < |prior| ==> HasCategory(rows, prior[j]) by {
        forall j | 0 <= j < |prior| ensures HasCategory(rows, prior[j]) {
          var k :| 0 <= k < |init| && init[k].category == prior[j];
          assert rows[k] == init[k];
        }
      }
      if c in prior then prior else prior + [c]
  }

  /** The grouping query: one entry per distinct category, the null category included. */
  function DistinctCategories(s: Store): (r: Result<seq<Option<string>>, StorageError>)
    ensures r.Failure? <==> CategoriesQuery in s.failing
    ensures r.Success? ==> r.value == Categories(s.rows)
  {
    if CategoriesQuery in s.failing then Failure(QueryFailed(CategoriesQuery))
    else Success(Categories(s.rows))
  }

  /** A row of category c with the greatest createdAt, or None when c has no row.
      Among rows tied on createdAt the earliest stored one is kept. */
  function Latest(rows: seq<Item>, c: Option<string>): (r: Option<Item>)
    ensures r.None? <==> !HasCategory(rows, c)
    ensures r.Some? ==> IsLatestIn(rows, c, r.value)
  {
    if rows == [] then None
    else
      var init := rows[..|rows| - 1];
      var last := rows[|rows| - 1];
      var best := Latest(init, c);
      assert rows == init + [last];
      if last.category != c then best
      else if best.None? || best.value.createdAt < last.createdAt then Some(last)
      else best
  }

  function LatestInCategory(s: Store, c: Option<string>): (r: Result<Option<Item>, StorageError>)
    ensures r.Failure? <==> LatestQuery(c) in s.failing
    ensures r.Success? ==> r.value == Latest(s.rows, c)
  {
    if LatestQuery(c) in s.failing then Failure(QueryFailed(LatestQuery(c)))
    else Success(Latest(s.rows, c))
  }

  function MaxId(rows: seq<Item>): (m: nat)
    ensures forall k :: 0 <= k < |rows| ==> rows[k].id <= m
  {
    if rows == [] then 0
    else
      var m := MaxId(rows[1..]);
      if rows[0].id > m then rows[0].id else m
  }

  /** create(attrs) at instant now: the auto-increment key is one past every stored id,
      and both timestamps are set to now. None when attrs violate the schema or the
      INTEGER key space is exhausted. */
  function Create(s: Store, attrs: Attributes, now: int): (r: Option<Store>)
    ensures r.Some? <==> MaxId(s.rows) < MaxKey && Build(attrs, MaxId(s.rows) + 1, now).Some?
    ensures r.Some? ==> r.value.failing == s.failing
    ensures r.Some? ==>
      && |r.value.rows| == |s.rows| + 1
      && r.value.rows[..|s.rows|] == s.rows
      && var it := r.value.rows[|s.rows|];
         && Some(it) == Build(attrs, it.id, now)
         && it.createdAt == now && it.updatedAt == now
         && (forall k :: 0 <= k < |s.rows| ==> s.rows[k].id < it.id)
  {
    if MaxId(s.rows) >= MaxKey then None
    else
      match Build(attrs, MaxId(s.rows) + 1, now)
      case None => None
      case Some(it) =>
        assert (s.rows + [it])[..|s.rows|] == s.rows;
        Some(Store(s.rows + [it], s.failing))
  }

  /** Creating a row keeps every row valid and every key unique. */
  lemma CreateKeepsValid(s: Store, attrs: Attributes, now: int)
    requires ValidStore(s)
    requires Create(s, attrs, now).Some?
    ensures ValidStore(Create(s, attrs, now).value)
  {
  }
}
