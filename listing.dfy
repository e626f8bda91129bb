/** Listings read with `findAndCountAll({ where, limit, offset, order: [['createdAt', 'DESC']] })`:
    the rows a filter keeps, newest first, cut into pages. */
module Listing {
  import opened Schema
  import opened Paging

  /** Every row on a page is a row of the table that the filter keeps. */
  lemma NewestPageRows<T>(t: Table<T>, p: T -> bool, page: nat, limit: nat)
    requires page >= 1 && limit >= 1
    ensures forall row | row in Window(NewestFirst(Where(t, p)), page, limit) :: row in t && p(row.val)
  {
    var w := Where(t, p);
    var listed := NewestFirst(w);
    var win := Window(listed, page, limit);
    forall row | row in win ensures row in t && p(row.val) {
      var k :| 0 <= k < |win| && win[k] == row;
      var j := Offset(page, limit) + k;
      assert j < |listed| && win[k] == listed[j];
      var i := |w| - 1 - j;
      assert listed[j] == w[i];
      assert w[i] in t && p(w[i].val);
    }
  }

  /** Every row the filter keeps is on some page within totalPages. */
  lemma NewestOnPage<T>(t: Table<T>, p: T -> bool, limit: nat, k: nat) returns (page: nat, slot: nat)
    requires limit >= 1 && k < |t| && p(t[k].val)
    ensures var listed := NewestFirst(Where(t, p));
            && 1 <= page <= TotalPages(|listed|, limit)
            && slot < |Window(listed, page, limit)| && Window(listed, page, limit)[slot] == t[k]
  {
    var w := Where(t, p);
    var listed := NewestFirst(w);
    assert t[k] in w;
    var i :| 0 <= i < |w| && w[i] == t[k];
    var j: nat := |w| - 1 - i;
    assert |w| - 1 - j == i;
    assert listed[j] == t[k];
    page, slot := RowOnPage(listed, limit, j);
  }
}
