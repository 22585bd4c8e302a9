/**
 * The `transactions` table behind `TransactionRepository`: an id-keyed store
 * updated in place by `save`, a filter query by customer and month key that
 * returns one page, and a SUM query by customer, month key and direction.
 */
module Repository {
  import opened Wrappers
  import opened Model

  /** The table: rows keyed by their primary key. */
  class TransactionRepository {
    var rows: map<Uuid, Transaction>

    constructor ()
      ensures rows == map[]
    {
      rows := map[];
    }

    /** `save` of an entity whose id is assigned: insert, or replace the row with that id. */
    method Save(t: Transaction)
      modifies this
      ensures rows == old(rows)[t.id := t]
      ensures t.id in rows && rows[t.id] == t
      ensures forall k :: k in old(rows) && k != t.id ==> k in rows && rows[k] == old(rows)[k]
    {
      rows := rows[t.id := t];
    }
  }

  /** Every row sits under its own id, as `save` keeps it. */
  predicate KeyedById(rows: map<Uuid, Transaction>) {
    forall k :: k in rows ==> rows[k].id == k
  }

  /**
   * The WHERE clause `t.customerId = :customerId AND t.monthKey = :monthKey`.
   * A NULL month key equals nothing, so such a row never matches.
   */
  predicate MatchesFilter(t: Transaction, customerId: string, monthKey: Date) {
    t.customerId == customerId && t.monthKey == Some(monthKey)
  }

  function MatchingIds(rows: map<Uuid, Transaction>, customerId: string, monthKey: Date): set<Uuid> {
    set k | k in rows && MatchesFilter(rows[k], customerId, monthKey)
  }

  /** `order` lists every id of `ids` exactly once: the order the database sorts the matches in. */
  ghost predicate Enumerates(order: seq<Uuid>, ids: set<Uuid>) {
    && (forall i, j :: 0 <= i < j < |order| ==> order[i] != order[j])
    && (forall k :: k in order <==> k in ids)
  }

  /** A duplicate-free enumeration has as many entries as the set it lists. */
  lemma {:induction false} EnumerationSize(order: seq<Uuid>, ids: set<Uuid>)
    requires Enumerates(order, ids)
    ensures |ids| == |order|
  {
    if order != [] {
      var last := order[|order| - 1];
      var prefix := order[..|order| - 1];
      assert Enumerates(prefix, ids - {last}) by {
        forall k ensures k in prefix <==> k in ids - {last} {
          if k in prefix {
            var i :| 0 <= i < |prefix| && prefix[i] == k;
            assert order[i] == k;
          }
          if k in ids - {last} {
            assert k in order;
            var i :| 0 <= i < |order| && order[i] == k;
            assert i != |order| - 1;
            assert prefix[i] == k;
          }
        }
      }
      EnumerationSize(prefix, ids - {last});
    }
  }

  /** The rows stored under the ids of `ids`, in that order. */
  function RowsOf(rows: map<Uuid, Transaction>, ids: seq<Uuid>): (ts: seq<Transaction>)
    requires forall k :: k in ids ==> k in rows
    ensures |ts| == |ids|
    ensures forall i :: 0 <= i < |ids| ==> ts[i] == rows[ids[i]]
  {
    if ids == [] then [] else [rows[ids[0]]] + RowsOf(rows, ids[1..])
  }

  /** A `PageRequest`: zero-based page number and page size. */
  datatype Pageable = Pageable(pageNumber: nat, pageSize: nat)

  /** A Spring Data `Page`: the rows of one page and the metadata of the whole result. */
  datatype Page = Page(content: seq<Transaction>, number: nat, size: nat, totalElements: nat, totalPages: nat)

  /**
   * `findByCustomerIdAndMonthKey`: the matching rows, in the database's
   * order `order`, cut into pages of `pageSize` rows; the page numbered
   * `pageNumber` is returned with the count of all matches and of all pages.
   */
  function FindByCustomerIdAndMonthKey(rows: map<Uuid, Transaction>, customerId: string, monthKey: Date,
                                       pageable: Pageable, order: seq<Uuid>): (p: Page)
    requires pageable.pageSize >= 1
    requires Enumerates(order, MatchingIds(rows, customerId, monthKey))
    ensures forall t :: t in p.content ==> t in rows.Values && MatchesFilter(t, customerId, monthKey)
    ensures |p.content| <= pageable.pageSize
    ensures p.number == pageable.pageNumber && p.size == pageable.pageSize
    ensures p.totalElements == |MatchingIds(rows, customerId, monthKey)|
    ensures p.totalPages == PageCount(p.totalElements, pageable.pageSize)
    ensures pageable.pageNumber == 0 && pageable.pageSize >= p.totalElements ==>
              forall k :: k in rows && MatchesFilter(rows[k], customerId, monthKey) ==> rows[k] in p.content
    ensures |p.content| == PageLength(p.totalElements, pageable.pageNumber, pageable.pageSize)
    ensures forall i :: 0 <= i < |p.content| ==>
              var position := PageStart(pageable.pageNumber, pageable.pageSize) + i;
              position < |order| && order[position] in rows && p.content[i] == rows[order[position]]
  {
    var window := Window(order, pageable.pageNumber, pageable.pageSize);
    WindowRows(rows, customerId, monthKey, order, window);
    PageRows(rows, customerId, monthKey, order, pageable.pageNumber, pageable.pageSize);
    var content := RowsOf(rows, window);
    var total := |order|;
    EnumerationSize(order, MatchingIds(rows, customerId, monthKey));
    var pages := PageCount(total, pageable.pageSize);
    if pageable.pageNumber == 0 && pageable.pageSize >= total then
      EnumerationCovers(rows, customerId, monthKey, order);
      Page(content, pageable.pageNumber, pageable.pageSize, total, pages)
    else
      Page(content, pageable.pageNumber, pageable.pageSize, total, pages)
  }

  /** Position `i` of page `number` holds the row stored under the id at `PageStart(number, size) + i` of the order. */
  lemma PageRows(rows: map<Uuid, Transaction>, customerId: string, monthKey: Date, order: seq<Uuid>, number: nat, size: nat)
    requires Enumerates(order, MatchingIds(rows, customerId, monthKey))
    ensures forall k :: k in order ==> k in rows
    ensures var content := RowsOf(rows, Window(order, number, size));
            && |content| == PageLength(|order|, number, size)
            && forall i :: 0 <= i < |content| ==>
                 var position := PageStart(number, size) + i;
                 position < |order| && order[position] in rows && content[i] == rows[order[position]]
  {
    EnumerationStored(rows, customerId, monthKey, order);
    var window := Window(order, number, size);
    var content := RowsOf(rows, window);
    forall i | 0 <= i < |content|
      ensures PageStart(number, size) + i < |order| && order[PageStart(number, size) + i] in rows
      ensures content[i] == rows[order[PageStart(number, size) + i]]
    {
      assert window[i] == order[PageStart(number, size) + i];
    }
  }

  /** The rows of a window of an enumeration of the matches are stored matches. */
  lemma WindowRows(rows: map<Uuid, Transaction>, customerId: string, monthKey: Date, order: seq<Uuid>, window: seq<Uuid>)
    requires Enumerates(order, MatchingIds(rows, customerId, monthKey))
    requires forall k :: k in window ==> k in order
    ensures forall k :: k in window ==> k in rows
    ensures forall t :: t in RowsOf(rows, window) ==> t in rows.Values && MatchesFilter(t, customerId, monthKey)
  {
    assert forall k :: k in window ==> k in rows && MatchesFilter(rows[k], customerId, monthKey);
    var content := RowsOf(rows, window);
    forall t | t in content ensures t in rows.Values && MatchesFilter(t, customerId, monthKey) {
      var i :| 0 <= i < |content| && content[i] == t;
      assert window[i] in window;
    }
  }

  /** Every id of an enumeration of the matches is stored. */
  lemma EnumerationStored(rows: map<Uuid, Transaction>, customerId: string, monthKey: Date, order: seq<Uuid>)
    requires Enumerates(order, MatchingIds(rows, customerId, monthKey))
    ensures forall k :: k in order ==> k in rows
  {
    forall k | k in order ensures k in rows {
      assert k in MatchingIds(rows, customerId, monthKey);
    }
  }

  /** Every stored match appears among the rows of the whole enumeration. */
  lemma EnumerationCovers(rows: map<Uuid, Transaction>, customerId: string, monthKey: Date, order: seq<Uuid>)
    requires Enumerates(order, MatchingIds(rows, customerId, monthKey))
    ensures forall k :: k in order ==> k in rows
    ensures forall k :: k in rows && MatchesFilter(rows[k], customerId, monthKey) ==> rows[k] in RowsOf(rows, order)
  {
    var content := RowsOf(rows, order);
    forall k | k in rows && MatchesFilter(rows[k], customerId, monthKey) ensures rows[k] in content {
      assert k in MatchingIds(rows, customerId, monthKey);
      var i :| 0 <= i < |order| && order[i] == k;
      assert content[i] == rows[k];
    }
  }

  /** The ids on page `number` when `order` is cut into pages of `size`. */
  function Window(order: seq<Uuid>, number: nat, size: nat): (w: seq<Uuid>)
    ensures |w| <= size
    ensures forall k :: k in w ==> k in order
    ensures number == 0 && size >= |order| ==> w == order
    ensures |w| == PageLength(|order|, number, size)
    ensures forall i :: 0 <= i < |w| ==> PageStart(number, size) + i < |order| && w[i] == order[PageStart(number, size) + i]
  {
    var start := PageStart(number, size);
    if start < |order| then
      var end := if start + size <= |order| then start + size else |order|;
      assert forall k :: k in order[start..end] ==> k in order by {
        forall k | k in order[start..end] ensures k in order {
          var i :| 0 <= i < end - start && order[start..end][i] == k;
          assert order[start + i] == k;
        }
      }
      order[start..end]
    else []
  }

  /** The offset of page `number`: the rows of the `number` pages before it. */
  function PageStart(number: nat, size: nat): nat {
    if number == 0 then 0 else PageStart(number - 1, size) + size
  }

  /** The offset is `pageNumber * pageSize`, as a `PageRequest` computes it. */
  lemma {:induction false} PageStartIsOffset(number: nat, size: nat)
    ensures PageStart(number, size) == number * size
  {
    if number > 0 {
      PageStartIsOffset(number - 1, size);
    }
  }

  /** How many of `total` rows fall on page `number` of pages of `size` rows. */
  function PageLength(total: nat, number: nat, size: nat): nat {
    var start := PageStart(number, size);
    if start >= total then 0
    else if start + size <= total then size
    else total - start
  }

  /** `getTotalPages`: the number of pages of `size` rows that `n` rows fill. */
  function PageCount(n: nat, size: nat): nat
    requires size >= 1
  {
    (n + size - 1) / size
  }

  /** The pages hold all `n` rows, and the last page is not empty. */
  lemma CeilingDivision(n: nat, size: nat)
    requires size >= 1
    ensures var q := PageCount(n, size);
            (q - 1) * size < n <= q * size || n == q == 0
  {
    var q := (n + size - 1) / size;
    var r := (n + size - 1) % size;
    assert n + size - 1 == q * size + r && 0 <= r < size;
  }

  /** SQL SUM over the amounts of the rows with the given ids. */
  ghost function SumAmounts(rows: map<Uuid, Transaction>, ids: set<Uuid>): real
    requires ids <= rows.Keys
    decreases ids
  {
    if ids == {} then 0.0
    else
      var k :| k in ids;
      rows[k].amount + SumAmounts(rows, ids - {k})
  }

  /** The sum does not depend on which row is taken first. */
  lemma {:induction false} SumAmountsPick(rows: map<Uuid, Transaction>, ids: set<Uuid>, k: Uuid)
    requires ids <= rows.Keys && k in ids
    ensures SumAmounts(rows, ids) == rows[k].amount + SumAmounts(rows, ids - {k})
    decreases ids
  {
    var j :| j in ids && SumAmounts(rows, ids) == rows[j].amount + SumAmounts(rows, ids - {j});
    if j != k {
      SumAmountsPick(rows, ids - {j}, k);
      SumAmountsPick(rows, ids - {k}, j);
      assert ids - {j} - {k} == ids - {k} - {j};
    }
  }

  /** The ids the SUM query adds up. */
  function TypedMatchingIds(rows: map<Uuid, Transaction>, customerId: string, monthKey: Date,
                            transactionType: TransactionType): set<Uuid> {
    set k | k in rows && MatchesFilter(rows[k], customerId, monthKey) && rows[k].transactionType == transactionType
  }

  /**
   * `getTotalAmountByCustomerIdAndMonthKeyAndTransactionType`: the sum of the
   * amounts of the matching rows of one direction; SQL NULL (`None`) when
   * no row matches.
   */
  ghost function TotalAmountByCustomerIdAndMonthKeyAndTransactionType(
    rows: map<Uuid, Transaction>, customerId: string, monthKey: Date, transactionType: TransactionType): (r: Option<real>)
    ensures r.None? <==> forall k :: k in rows ==>
              !(MatchesFilter(rows[k], customerId, monthKey) && rows[k].transactionType == transactionType)
  {
    var ids := TypedMatchingIds(rows, customerId, monthKey, transactionType);
    assert forall k :: k in rows && MatchesFilter(rows[k], customerId, monthKey) && rows[k].transactionType == transactionType
                       ==> k in ids;
    if ids == {} then None
    else
      assert exists k :: k in ids;
      Some(SumAmounts(rows, ids))
  }

  /** The amounts of the rows of one direction in a sequence of rows, others counted as zero. */
  function TypedAmountSum(ts: seq<Transaction>, transactionType: TransactionType): real {
    if ts == [] then 0.0
    else
      var last := ts[|ts| - 1];
      TypedAmountSum(ts[..|ts| - 1], transactionType) + (if last.transactionType == transactionType then last.amount else 0.0)
  }

  /** The ids in `order` of the rows of one direction. */
  function IdsOfType(rows: map<Uuid, Transaction>, order: seq<Uuid>, transactionType: TransactionType): set<Uuid>
    requires forall k :: k in order ==> k in rows
  {
    set k | k in order && rows[k].transactionType == transactionType
  }

  lemma IdsOfTypeSnoc(rows: map<Uuid, Transaction>, order: seq<Uuid>, transactionType: TransactionType)
    requires order != [] && forall k :: k in order ==> k in rows
    requires order[|order| - 1] !in order[..|order| - 1]
    ensures var last := order[|order| - 1];
            IdsOfType(rows, order[..|order| - 1], transactionType)
            == IdsOfType(rows, order, transactionType) - {last}
    ensures var last := order[|order| - 1];
            last in IdsOfType(rows, order, transactionType) <==> rows[last].transactionType == transactionType
  {
    var last := order[|order| - 1];
    assert order == order[..|order| - 1] + [last];
  }

  lemma RowsOfPrefix(rows: map<Uuid, Transaction>, order: seq<Uuid>)
    requires order != [] && forall k :: k in order ==> k in rows
    ensures var ts := RowsOf(rows, order);
            ts[..|ts| - 1] == RowsOf(rows, order[..|order| - 1]) && ts[|ts| - 1] == rows[order[|order| - 1]]
  {
  }

  /**
   * Adding the amounts of one direction while walking a duplicate-free
   * list of ids gives the SQL SUM over the same rows.
   */
  lemma {:induction false} SumOverEnumeration(rows: map<Uuid, Transaction>, order: seq<Uuid>, transactionType: TransactionType)
    requires forall i, j :: 0 <= i < j < |order| ==> order[i] != order[j]
    requires forall k :: k in order ==> k in rows
    ensures SumAmounts(rows, IdsOfType(rows, order, transactionType))
            == TypedAmountSum(RowsOf(rows, order), transactionType)
  {
    if order == [] {
      assert IdsOfType(rows, order, transactionType) == {};
    } else {
      var last := order[|order| - 1];
      var prefix := order[..|order| - 1];
      assert forall i, j :: 0 <= i < j < |prefix| ==> prefix[i] != prefix[j];
      assert last !in prefix;
      SumOverEnumeration(rows, prefix, transactionType);
      SumStep(rows, order, transactionType);
    }
  }

  /** One step of the walk: the last id of `order` joins the sum of the ids before it. */
  lemma SumStep(rows: map<Uuid, Transaction>, order: seq<Uuid>, transactionType: TransactionType)
    requires order != [] && forall k :: k in order ==> k in rows
    requires order[|order| - 1] !in order[..|order| - 1]
    requires SumAmounts(rows, IdsOfType(rows, order[..|order| - 1], transactionType))
             == TypedAmountSum(RowsOf(rows, order[..|order| - 1]), transactionType)
    ensures SumAmounts(rows, IdsOfType(rows, order, transactionType))
            == TypedAmountSum(RowsOf(rows, order), transactionType)
  {
    var last := order[|order| - 1];
    var prefix := order[..|order| - 1];
    var ids := IdsOfType(rows, order, transactionType);
    var prefixIds := IdsOfType(rows, prefix, transactionType);
    var ts := RowsOf(rows, order);
    var prefixSum := TypedAmountSum(RowsOf(rows, prefix), transactionType);
    var lastAmount := if rows[last].transactionType == transactionType then rows[last].amount else 0.0;
    RowsOfPrefix(rows, order);
    assert TypedAmountSum(ts, transactionType) == prefixSum + lastAmount;
    IdsOfTypeSnoc(rows, order, transactionType);
    assert prefixIds == ids - {last};
    if rows[last].transactionType == transactionType {
      SumAmountsPick(rows, ids, last);
    } else {
      assert last !in ids;
      assert prefixIds == ids;
    }
  }

  /**
   * The SUM query agrees with adding up, in the database's order, the rows
   * the filter query would return.
   */
  lemma TotalAmountOverEnumeration(rows: map<Uuid, Transaction>, customerId: string, monthKey: Date,
                                   order: seq<Uuid>, transactionType: TransactionType)
    requires Enumerates(order, MatchingIds(rows, customerId, monthKey))
    ensures TotalAmountByCustomerIdAndMonthKeyAndTransactionType(rows, customerId, monthKey, transactionType).GetOr(0.0)
            == TypedAmountSum(RowsOf(rows, order), transactionType)
  {
    SumOverEnumeration(rows, order, transactionType);
    assert IdsOfType(rows, order, transactionType) == TypedMatchingIds(rows, customerId, monthKey, transactionType);
  }
}
