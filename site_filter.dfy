/** The "Filter by Job Board" view over the result table. */
module SiteFilter {
  import opened Seqs
  import opened Jobs

  /** The rows whose site is one of `selected`, in table order: the boolean mask
      `jobs['site'].isin(selected)` applied to the table. */
  function KeepSites(rows: seq<Row>, selected: seq<string>): (kept: seq<Row>)
    ensures |kept| <= |rows|
    ensures forall x :: x in kept ==> x in rows && x.site in selected
    decreases |rows|
  {
    if rows == [] then []
    else (if rows[0].site in selected then [rows[0]] else []) + KeepSites(rows[1..], selected)
  }

  /** The rows that are displayed and exported: with a non-empty selection, the
      rows of the selected sites; with an empty one, the whole table. */
  function FilterBySite(rows: seq<Row>, selected: seq<string>): (shown: seq<Row>)
    ensures |shown| <= |rows|
    ensures forall x :: x in shown ==> x in rows
    ensures selected != [] ==> forall x :: x in shown ==> x.site in selected
  {
    if selected != [] then KeepSites(rows, selected) else rows
  }

  /** `jobs['site'].unique().tolist()`: each site of the table once, in the
      order of its first row. */
  function UniqueSites(rows: seq<Row>): (sites: seq<string>)
    ensures |sites| <= |rows|
    ensures rows != [] ==> sites != [] && sites[0] == rows[0].site
    decreases |rows|
  {
    if rows == [] then []
    else
      var earlier := UniqueSites(rows[..|rows| - 1]);
      var last := rows[|rows| - 1].site;
      if last in earlier then earlier else earlier + [last]
  }

  /** The mask keeps every row of a selected site and no other, as often as it
      occurs in the table. */
  lemma {:induction false} KeepSitesCounts(rows: seq<Row>, selected: seq<string>, x: Row)
    ensures multiset(KeepSites(rows, selected))[x] == if x.site in selected then multiset(rows)[x] else 0
    decreases |rows|
  {
    if rows != [] {
      KeepSitesCounts(rows[1..], selected, x);
      assert rows == [rows[0]] + rows[1..];
    }
  }

  /** The mask keeps the table order of the rows it keeps. */
  lemma {:induction false} KeepSitesStable(rows: seq<Row>, selected: seq<string>)
    ensures IsSubsequence(KeepSites(rows, selected), rows)
    decreases |rows|
  {
    if rows != [] {
      KeepSitesStable(rows[1..], selected);
      var a, rest := KeepSites(rows, selected), KeepSites(rows[1..], selected);
      if rows[0].site in selected {
        assert a == [rows[0]] + rest && a[1..] == rest;
      } else {
        assert a == rest;
      }
    }
  }

  /** Masking a concatenation masks each part. */
  lemma {:induction false} KeepSitesAppend(a: seq<Row>, b: seq<Row>, selected: seq<string>)
    ensures KeepSites(a + b, selected) == KeepSites(a, selected) + KeepSites(b, selected)
    decreases |a|
  {
    if a != [] {
      KeepSitesAppend(a[1..], b, selected);
      assert (a + b)[1..] == a[1..] + b;
    } else {
      assert a + b == b;
    }
  }

  /** A mask that admits every row leaves the table unchanged. */
  lemma {:induction false} KeepSitesAll(rows: seq<Row>, selected: seq<string>)
    requires forall i :: 0 <= i < |rows| ==> rows[i].site in selected
    ensures KeepSites(rows, selected) == rows
    decreases |rows|
  {
    if rows != [] {
      KeepSitesAll(rows[1..], selected);
    }
  }

  /** With a non-empty selection the view holds exactly the rows whose site is
      selected, each as often as in the table, in table order, and is no longer
      than the table; with an empty selection it is the table unchanged. */
  lemma FilterBySiteSpec(rows: seq<Row>, selected: seq<string>)
    ensures selected != [] ==>
      forall x :: multiset(FilterBySite(rows, selected))[x] == if x.site in selected then multiset(rows)[x] else 0
    ensures selected != [] ==> forall x :: x in FilterBySite(rows, selected) <==> x in rows && x.site in selected
    ensures IsSubsequence(FilterBySite(rows, selected), rows)
    ensures |FilterBySite(rows, selected)| <= |rows|
    ensures selected == [] ==> FilterBySite(rows, selected) == rows
  {
    if selected != [] {
      forall x ensures multiset(FilterBySite(rows, selected))[x] == if x.site in selected then multiset(rows)[x] else 0 {
        KeepSitesCounts(rows, selected, x);
      }
      forall x ensures x in FilterBySite(rows, selected) <==> x in rows && x.site in selected {
        KeepSitesCounts(rows, selected, x);
      }
      KeepSitesStable(rows, selected);
    } else {
      SubsequenceReflexive(rows);
    }
    SubsequenceLength(FilterBySite(rows, selected), rows);
  }

  /** The distinct sites are exactly the sites of the table, each listed once. */
  lemma {:induction false} UniqueSitesSpec(rows: seq<Row>)
    ensures forall s :: s in UniqueSites(rows) <==> exists i :: 0 <= i < |rows| && rows[i].site == s
    ensures NoDuplicates(UniqueSites(rows))
    decreases |rows|
  {
    if rows != [] {
      var init := rows[..|rows| - 1];
      UniqueSitesSpec(init);
      var earlier, last := UniqueSites(init), rows[|rows| - 1].site;
      forall s ensures s in UniqueSites(rows) <==> exists i :: 0 <= i < |rows| && rows[i].site == s {
        if exists i :: 0 <= i < |rows| && rows[i].site == s {
          var i :| 0 <= i < |rows| && rows[i].site == s;
          if i < |rows| - 1 {
            assert init[i].site == s;
          }
        }
        if s in earlier {
          var i :| 0 <= i < |init| && init[i].site == s;
          assert rows[i].site == s;
        }
      }
    }
  }

  /** The distinct sites list the sites in the order of their first row. */
  lemma {:induction false} UniqueSitesFirstSeen(rows: seq<Row>, p: nat, q: nat, i: nat)
    requires p < q < |UniqueSites(rows)|
    requires i < |rows| && rows[i].site == UniqueSites(rows)[q]
    ensures exists j :: 0 <= j < i && rows[j].site == UniqueSites(rows)[p]
    decreases |rows|
  {
    var init := rows[..|rows| - 1];
    var earlier := UniqueSites(init);
    UniqueSitesSpec(init);
    assert p < |earlier| && UniqueSites(rows)[p] == earlier[p];
    if i < |rows| - 1 {
      assert init[i].site == UniqueSites(rows)[q];
      assert UniqueSites(rows)[q] in earlier;
      if q < |earlier| {
        UniqueSitesFirstSeen(init, p, q, i);
        var j :| 0 <= j < i && init[j].site == earlier[p];
        assert rows[j].site == init[j].site;
      } else {
        assert false;
      }
    } else {
      assert earlier[p] in earlier;
      var j :| 0 <= j < |init| && init[j].site == earlier[p];
      assert rows[j].site == init[j].site;
    }
  }

  /** Under the default selection (every distinct site of a non-empty table)
      the view shows every row, in table order. */
  lemma DefaultSelectionShowsAll(rows: seq<Row>)
    requires rows != []
    ensures FilterBySite(rows, UniqueSites(rows)) == rows
  {
    UniqueSitesSpec(rows);
    assert rows[0].site in UniqueSites(rows);
    forall i | 0 <= i < |rows| ensures rows[i].site in UniqueSites(rows) {
    }
    KeepSitesAll(rows, UniqueSites(rows));
  }
}
