/** The three tables of the bookkeeping store (users, categories, records), the claim set a
    session token carries, the `{code, message, data}` reply envelope, and the database object
    (`env.DB`) that the handlers read and change. */
module Schema {

  datatype Option<+T> = None | Some(value: T)

  /** A calendar date as held in `record_date` (zero-padded ISO `YYYY-MM-DD` text in the store). */
  datatype Date = Date(year: int, month: int, day: int)

  /** A `YYYY-MM` month, the value of `strftime('%Y-%m', record_date)`. */
  datatype Month = Month(year: int, month: int)

  function MonthOf(d: Date): Month
  {
    Month(d.year, d.month)
  }

  /** The order in which the store compares two zero-padded ISO date texts. */
  predicate DateLe(a: Date, b: Date)
  {
    a.year < b.year || (a.year == b.year && (a.month < b.month || (a.month == b.month && a.day <= b.day)))
  }

  datatype User = User(id: int, username: string, password: string, isAdmin: int, createdAt: int)

  /** `userId` 0 marks a shared (system) category. */
  datatype Category = Category(id: int, userId: int, name: string, isIncome: int)

  datatype Record = Record(
    id: int, userId: int, amount: int, categoryId: int,
    description: string, recordDate: Date, createdAt: int)

  /** The payload of a session token: the user's identity plus the issue time and the expiry
      (seconds) that the token library adds. */
  datatype Claims = Claims(id: int, username: string, isAdmin: int, iat: int, exp: int)

  /** A record with the category it references, as produced by
      `records r LEFT JOIN categories c ON r.category_id = c.id`; `category` is None when no
      category has that id. */
  datatype Joined = Joined(record: Record, category: Option<Category>)

  /** The category with id `id`, the one row the join can pick when ids are unique. */
  function CategoryOf(categories: seq<Category>, id: int): (r: Option<Category>)
    ensures r.Some? ==> r.value in categories && r.value.id == id
    ensures r.None? ==> forall i :: 0 <= i < |categories| ==> categories[i].id != id
  {
    if categories == [] then None
    else if categories[0].id == id then Some(categories[0])
    else CategoryOf(categories[1..], id)
  }

  function JoinOne(categories: seq<Category>, r: Record): Joined
  {
    Joined(r, CategoryOf(categories, r.categoryId))
  }

  /** The left join of the records with the categories, one joined row per record. */
  function Join(records: seq<Record>, categories: seq<Category>): (js: seq<Joined>)
    ensures |js| == |records|
    ensures forall i :: 0 <= i < |js| ==> js[i] == JoinOne(categories, records[i])
  {
    seq(|records|, i requires 0 <= i < |records| => JoinOne(categories, records[i]))
  }

  lemma JoinAppend(records: seq<Record>, r: Record, categories: seq<Category>)
    ensures Join(records + [r], categories) == Join(records, categories) + [JoinOne(categories, r)]
  {
  }

  /** `c.is_income = 1`; false when the record has no category (the comparison is NULL). */
  predicate IsIncomeRow(j: Joined)
  {
    j.category.Some? && j.category.value.isIncome == 1
  }

  /** `c.is_income = 0`; false when the record has no category. */
  predicate IsExpenseRow(j: Joined)
  {
    j.category.Some? && j.category.value.isIncome == 0
  }

  /** `CASE WHEN c.is_income = 1 THEN r.amount ELSE 0 END`. */
  function IncomePart(j: Joined): int
  {
    if IsIncomeRow(j) then j.record.amount else 0
  }

  /** `CASE WHEN c.is_income = 0 THEN r.amount ELSE 0 END`. */
  function ExpensePart(j: Joined): int
  {
    if IsExpenseRow(j) then j.record.amount else 0
  }

  function AmountOf(j: Joined): int
  {
    j.record.amount
  }

  /** The reply of a handler that can fail: `code` 200 with a message and data, or an error code
      with a message. */
  datatype Reply<+T> = Success(message: string, data: T) | Failure(code: int, message: string)

  /** JavaScript truthiness of a numeric request field: absent, null and 0 are falsy. */
  predicate Truthy(x: Option<int>)
  {
    x.Some? && x.value != 0
  }

  /** JavaScript truthiness of a string request field: absent, null and "" are falsy. */
  predicate Present(s: Option<string>)
  {
    s.Some? && s.value != ""
  }

  /** `s || ''`. */
  function OrEmpty(s: Option<string>): (r: string)
    ensures Present(s) ==> r == s.value
    ensures !Present(s) ==> r == ""
  {
    if s.Some? then s.value else ""
  }

  ghost predicate UsersValid(users: seq<User>, nextId: int)
  {
    && nextId >= 1
    && (forall i :: 0 <= i < |users| ==> 1 <= users[i].id < nextId)
    && (forall i, j :: 0 <= i < j < |users| ==> users[i].id != users[j].id)
    && (forall i, j :: 0 <= i < j < |users| ==> users[i].username != users[j].username)
  }

  ghost predicate CategoriesValid(categories: seq<Category>, nextId: int)
  {
    && nextId >= 1
    && (forall i :: 0 <= i < |categories| ==> 1 <= categories[i].id < nextId)
    && (forall i, j :: 0 <= i < j < |categories| ==> categories[i].id != categories[j].id)
    && (forall i, j :: 0 <= i < j < |categories| ==>
          categories[i].userId != categories[j].userId || categories[i].name != categories[j].name)
  }

  ghost predicate RecordsValid(records: seq<Record>, nextId: int)
  {
    && nextId >= 1
    && (forall i :: 0 <= i < |records| ==> 1 <= records[i].id < nextId)
    && (forall i, j :: 0 <= i < j < |records| ==> records[i].id != records[j].id)
  }

  /** The relational store. Each `next...Id` is above every id in use in its table, which is
      what the store's row-id allocation guarantees for a freshly inserted row. */
  class Database {
    var users: seq<User>
    var categories: seq<Category>
    var records: seq<Record>
    var nextUserId: int
    var nextCategoryId: int
    var nextRecordId: int

    ghost predicate Valid()
      reads this
    {
      && UsersValid(users, nextUserId)
      && CategoriesValid(categories, nextCategoryId)
      && RecordsValid(records, nextRecordId)
    }

    /** A store holding only the seeded shared categories. */
    constructor (seed: seq<Category>, nextCategoryId: int)
      requires CategoriesValid(seed, nextCategoryId)
      ensures Valid()
      ensures users == [] && records == [] && categories == seed
      ensures this.nextCategoryId == nextCategoryId
    {
      users, categories, records := [], seed, [];
      nextUserId, this.nextCategoryId, nextRecordId := 1, nextCategoryId, 1;
    }
  }
}
