/** The category store: the listing of the shared categories plus the caller's own, and the
    creation of a caller-owned category with a non-empty name that is unique for that owner. */
module Categories {
  import opened Schema
  import opened Sorting

  const MSG_NAME_REQUIRED: string := "分类名称不能为空"
  const MSG_NAME_TAKEN: string := "该分类名称已存在"
  const MSG_CREATED: string := "分类添加成功"

  /** A listed row: `SELECT id, name, is_income`. */
  datatype CategoryView = CategoryView(id: int, name: string, isIncome: int)

  function View(c: Category): CategoryView
  {
    CategoryView(c.id, c.name, c.isIncome)
  }

  /** `user_id = 0 OR user_id = ?`: shared categories and the caller's own. */
  predicate VisibleTo(c: Category, userId: int)
  {
    c.userId == 0 || c.userId == userId
  }

  /** `ORDER BY is_income DESC, id ASC`. */
  predicate ListedBefore(a: Category, b: Category)
  {
    a.isIncome > b.isIncome || (a.isIncome == b.isIncome && a.id <= b.id)
  }

  lemma ListedBeforeIsOrder()
    ensures Total(ListedBefore) && Transitive(ListedBefore)
  {
  }

  /** The rows the `WHERE` clause keeps, in table order. Written out, like `Aggregates.Filter`, rather than
      as a `Filter` instance: the inductive lemmas below unfold it with its parameters in plain
      view, where a closure would hide them. */
  function Scoped(categories: seq<Category>, userId: int): (r: seq<Category>)
    ensures forall c :: c in r <==> c in categories && VisibleTo(c, userId)
    ensures |r| <= |categories|
  {
    if categories == [] then []
    else
      var last := categories[|categories| - 1];
      Scoped(categories[..|categories| - 1], userId) + (if VisibleTo(last, userId) then [last] else [])
  }

  /** The listing handler: the caller's visible categories, income first, then by id. Which rows
      these are and their order is stated by the lemmas below. */
  function List(categories: seq<Category>, userId: int): (r: seq<CategoryView>)
    ensures |r| == |Scoped(categories, userId)|
  {
    var sorted := Sort(Scoped(categories, userId), ListedBefore);
    seq(|sorted|, i requires 0 <= i < |sorted| => View(sorted[i]))
  }

  /** Every visible category is listed. */
  lemma VisibleAreListed(categories: seq<Category>, userId: int)
    ensures forall c :: c in categories && VisibleTo(c, userId) ==> View(c) in List(categories, userId)
  {
    var sorted := Sort(Scoped(categories, userId), ListedBefore);
    var r := List(categories, userId);
    forall c | c in categories && VisibleTo(c, userId) ensures View(c) in r {
      assert c in multiset(sorted);
      var k :| 0 <= k < |sorted| && sorted[k] == c;
      assert r[k] == View(c);
    }
  }

  /** `v` is the listed form of a category visible to the caller. */
  ghost predicate ViewOfVisible(v: CategoryView, categories: seq<Category>, userId: int)
  {
    exists c :: c in categories && VisibleTo(c, userId) && v == View(c)
  }

  /** Every listed row is a visible category. */
  lemma ListedAreVisible(categories: seq<Category>, userId: int)
    ensures var r := List(categories, userId);
            forall i :: 0 <= i < |r| ==> ViewOfVisible(r[i], categories, userId)
  {
    var sorted := Sort(Scoped(categories, userId), ListedBefore);
    var r := List(categories, userId);
    forall i | 0 <= i < |r| ensures ViewOfVisible(r[i], categories, userId) {
      var c := sorted[i];
      assert c in multiset(sorted);
      assert c in Scoped(categories, userId);
      assert r[i] == View(c);
    }
  }

  /** Income categories come first, and ids ascend within each kind. */
  lemma ListedInOrder(categories: seq<Category>, userId: int)
    ensures var r := List(categories, userId);
            forall i, j :: 0 <= i < j < |r| ==>
              r[i].isIncome > r[j].isIncome || (r[i].isIncome == r[j].isIncome && r[i].id <= r[j].id)
  {
    var sorted := Sort(Scoped(categories, userId), ListedBefore);
    ListedBeforeIsOrder();
    SortSorted(Scoped(categories, userId), ListedBefore);
    var r := List(categories, userId);
    forall i, j | 0 <= i < j < |r|
      ensures r[i].isIncome > r[j].isIncome || (r[i].isIncome == r[j].isIncome && r[i].id <= r[j].id)
    {
      assert ListedBefore(sorted[i], sorted[j]);
    }
  }

  /** `(user_id, name)` is already used. */
  predicate NameTaken(categories: seq<Category>, userId: int, name: string)
  {
    exists i :: 0 <= i < |categories| && categories[i].userId == userId && categories[i].name == name
  }

  /** The row the insert stores: owned by the caller, `is_income` normalised to 1 or 0. */
  function NewCategory(id: int, userId: int, name: string, isIncome: Option<int>): (c: Category)
    ensures c.id == id && c.userId == userId && c.name == name
    ensures c.isIncome == 1 || c.isIncome == 0
    ensures c.isIncome == 1 <==> Truthy(isIncome)
  {
    Category(id, userId, name, if Truthy(isIncome) then 1 else 0)
  }

  /** The creation handler. The `(user_id, name)` uniqueness that the store enforces is
      checked before the insert; its failure is the 400 "name taken" reply. */
  method Create(db: Database, userId: int, name: Option<string>, isIncome: Option<int>)
    returns (reply: Reply<int>)
    requires db.Valid()
    modifies db`categories, db`nextCategoryId
    ensures db.Valid()
    ensures !Present(name) ==>
      reply == Failure(400, MSG_NAME_REQUIRED) && unchanged(db`categories, db`nextCategoryId)
    ensures Present(name) && NameTaken(old(db.categories), userId, name.value) ==>
      reply == Failure(400, MSG_NAME_TAKEN) && unchanged(db`categories, db`nextCategoryId)
    ensures Present(name) && !NameTaken(old(db.categories), userId, name.value) ==>
      && reply == Success(MSG_CREATED, old(db.nextCategoryId))
      && db.categories == old(db.categories) + [NewCategory(old(db.nextCategoryId), userId, name.value, isIncome)]
      && db.nextCategoryId == old(db.nextCategoryId) + 1
  {
    if !Present(name) {
      return Failure(400, MSG_NAME_REQUIRED);
    }
    if NameTaken(db.categories, userId, name.value) {
      return Failure(400, MSG_NAME_TAKEN);
    }
    var id := db.nextCategoryId;
    db.categories := db.categories + [NewCategory(id, userId, name.value, isIncome)];
    db.nextCategoryId := id + 1;
    reply := Success(MSG_CREATED, id);
  }

  /** A created category shows up in its owner's listing, and a second creation with the same
      name for that owner is refused. */
  lemma {:induction false} CreatedIsListedAndTaken(categories: seq<Category>, id: int, userId: int, name: string, isIncome: Option<int>)
    ensures var c := NewCategory(id, userId, name, isIncome);
            View(c) in List(categories + [c], userId) && NameTaken(categories + [c], userId, name)
  {
    var c := NewCategory(id, userId, name, isIncome);
    assert (categories + [c])[|categories|] == c;
    VisibleAreListed(categories + [c], userId);
  }
}
