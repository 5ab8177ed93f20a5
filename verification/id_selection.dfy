/** The ID selection page: discover the subject IDs present on disk from the
    names of the visit folders of the five time points, keep the rows of the
    Kellgren-Lawrence table that belong to those subjects, and show the `ID`
    column with every `KL_*` column. */
module IdSelection {
  import opened Wrappers
  import opened Strings
  import opened Seqs

  /** The longitudinal time points, one folder each under `DATA/processed_PP`. */
  const TimePoints: seq<string> := ["00m", "12m", "24m", "48m", "72m"]

  /** The subject ID a folder name carries: its first `_`-separated field read
      as an integer; `None` when that field is not an integer literal. */
  function FolderId(name: string): (r: Option<int>)
    ensures r.Some? <==> IsIntLiteral(FirstField(name, '_'))
  {
    ParseInt(FirstField(name, '_'))
  }

  /** A folder named by the convention `<id>_<rest>` yields that ID, whatever
      the rest holds (including further `_`). */
  lemma FolderIdOfConvention(id: int, rest: string)
    ensures FolderId(Show(id) + "_" + rest) == Some(id)
  {
    FirstFieldOf(Show(id), '_', rest);
    ParseShow(id);
  }

  /** A name without `_` is parsed whole. */
  lemma FolderIdWithoutSeparator(name: string)
    requires '_' !in name
    ensures FolderId(name) == ParseInt(name)
  {
    var f := FirstField(name, '_');
    assert name[..|f|] == name;
  }

  /** `ids` holds exactly the IDs that the names in `listing` carry. */
  ghost predicate IdsOfListing(ids: set<int>, listing: seq<string>) {
    && (forall n :: n in listing && FolderId(n).Some? ==> FolderId(n).value in ids)
    && (forall x :: x in ids ==> exists n :: n in listing && FolderId(n) == Some(x))
  }

  /** The IDs of one time-point folder: every entry whose prefix parses adds
      its ID; the others are skipped and the scan goes on. */
  method FolderIds(listing: seq<string>) returns (ids: set<int>)
    ensures forall n :: n in listing && FolderId(n).Some? ==> FolderId(n).value in ids
    ensures forall x :: x in ids ==> exists n :: n in listing && FolderId(n) == Some(x)
  {
    ids := {};
    for k := 0 to |listing|
      invariant forall j :: 0 <= j < k && FolderId(listing[j]).Some? ==> FolderId(listing[j]).value in ids
      invariant forall x :: x in ids ==> exists j :: 0 <= j < k && FolderId(listing[j]) == Some(x)
    {
      var id := FolderId(listing[k]);
      if id.None? {
        continue;
      }
      ids := ids + {id.value};
    }
    forall x | x in ids ensures exists n :: n in listing && FolderId(n) == Some(x) {
      var j :| 0 <= j < |listing| && FolderId(listing[j]) == Some(x);
      assert listing[j] in listing;
    }
  }

  /** `set.union(*sets)`. */
  function UnionAll(sets: seq<set<int>>): (r: set<int>)
    ensures forall x :: x in r <==> exists u :: 0 <= u < |sets| && x in sets[u]
  {
    if sets == [] then {}
    else
      assert forall x, u :: 1 <= u < |sets| && x in sets[u] ==> x in sets[1..][u - 1];
      sets[0] + UnionAll(sets[1..])
  }

  predicate StrictlyAscending(s: seq<int>) {
    forall i, j :: 0 <= i < j < |s| ==> s[i] < s[j]
  }

  /** An element of a non-empty set. */
  lemma Pick(s: set<int>) returns (x: int)
    requires s != {}
    ensures x in s
  {
    if forall y :: y !in s {
      assert false;
    }
    x :| x in s;
  }

  predicate IsLeast(m: int, s: set<int>) {
    m in s && forall y :: y in s ==> m <= y
  }

  lemma {:induction false} HasLeast(s: set<int>)
    requires s != {}
    ensures exists m :: IsLeast(m, s)
    decreases |s|
  {
    var x := Pick(s);
    var rest := s - {x};
    if rest == {} {
      forall y | y in s ensures x <= y {
        assert y !in rest;
      }
      assert IsLeast(x, s);
    } else {
      HasLeast(rest);
      var m :| IsLeast(m, rest);
      var least := if x < m then x else m;
      forall y | y in s ensures least <= y {
        if y != x {
          assert y in rest;
        }
      }
      assert IsLeast(least, s);
    }
  }

  /** `sorted(list(s))`: the elements of a set in ascending order. */
  function SortedList(s: set<int>): (r: seq<int>)
    ensures StrictlyAscending(r)
    ensures forall x :: x in r <==> x in s
    decreases |s|
  {
    if s == {} then []
    else
      HasLeast(s);
      var m :| IsLeast(m, s);
      [m] + SortedList(s - {m})
  }

  /** `get_all_ids`: one set of IDs per time-point folder, their union, sorted.
      Every ID returned is carried by some folder name, every folder name
      that carries an ID contributes it, and the list is strictly ascending. */
  method GetAllIds(listings: seq<seq<string>>) returns (ids: seq<int>)
    requires |listings| == |TimePoints|
    ensures StrictlyAscending(ids)
    ensures forall t, n :: 0 <= t < |listings| && n in listings[t] && FolderId(n).Some? ==>
      FolderId(n).value in ids
    ensures forall x :: x in ids ==>
      exists t, n :: 0 <= t < |listings| && n in listings[t] && FolderId(n) == Some(x)
  {
    var idsSets: seq<set<int>> := [];
    for t := 0 to |listings|
      invariant |idsSets| == t
      invariant forall u :: 0 <= u < t ==> IdsOfListing(idsSets[u], listings[u])
    {
      var ids := FolderIds(listings[t]);
      idsSets := idsSets + [ids];
    }
    var allIds := UnionAll(idsSets);
    ids := SortedList(allIds);
    forall t, n | 0 <= t < |listings| && n in listings[t] && FolderId(n).Some?
      ensures FolderId(n).value in ids
    {
      assert IdsOfListing(idsSets[t], listings[t]);
    }
    forall x | x in ids
      ensures exists t, n :: 0 <= t < |listings| && n in listings[t] && FolderId(n) == Some(x)
    {
      var u :| 0 <= u < |idsSets| && x in idsSets[u];
      assert IdsOfListing(idsSets[u], listings[u]);
    }
  }

  /** A value of the Kellgren-Lawrence table. */
  datatype Cell = Int(n: int) | Text(s: string) | Blank

  /** A table as read from `OAI_KL.csv`: column names and rows. */
  datatype Table = Table(columns: seq<string>, rows: seq<seq<Cell>>)

  /** What a table read from CSV always satisfies: distinct column names
      (the reader renames repeated ones) and one cell per column in each row. */
  predicate WellFormed(t: Table) {
    NoDuplicates(t.columns) && forall row :: row in t.rows ==> |row| == |t.columns|
  }

  /** Position of column `name`, if it is present. */
  function ColumnIndex(columns: seq<string>, name: string): (r: Option<nat>)
    ensures r.None? <==> name !in columns
    ensures r.Some? ==> r.value < |columns| && columns[r.value] == name
    ensures r.Some? ==> forall j :: 0 <= j < r.value ==> columns[j] != name
  {
    FirstIndex(columns, c => c == name)
  }

  /** A row whose `ID` cell (at position `k`) is one of `ids`. */
  predicate IdIn(k: nat, ids: seq<int>, row: seq<Cell>) {
    k < |row| && row[k].Int? && row[k].n in ids
  }

  /** `df[df['ID'].isin(ids)]`: the rows whose `ID` is one of `ids`, in their
      original order; `None` when there is no `ID` column (`KeyError`). */
  function FilterByIds(t: Table, ids: seq<int>): (r: Option<Table>)
    ensures r.None? <==> "ID" !in t.columns
    ensures r.Some? ==> r.value.columns == t.columns
    ensures r.Some? ==> forall row :: row in r.value.rows <==>
      row in t.rows && IdIn(ColumnIndex(t.columns, "ID").value, ids, row)
    ensures r.Some? ==> forall row ::
      multiset(r.value.rows)[row] ==
      (if IdIn(ColumnIndex(t.columns, "ID").value, ids, row) then multiset(t.rows)[row] else 0)
    ensures r.Some? ==> IsSubsequence(r.value.rows, t.rows)
  {
    match ColumnIndex(t.columns, "ID")
    case None => None
    case Some(k) =>
      var keep := (row: seq<Cell>) => IdIn(k, ids, row);
      FilterIsSubsequence(t.rows, keep);
      Some(Table(t.columns, Filter(t.rows, keep)))
  }

  /** A row whose `ID` cell (at position `k`) is carried by some visit-folder
      name of the listings. */
  ghost predicate IdOnDisk(k: nat, listings: seq<seq<string>>, row: seq<Cell>) {
    k < |row| && row[k].Int? &&
    exists u, n :: 0 <= u < |listings| && n in listings[u] && FolderId(n) == Some(row[k].n)
  }

  /** `load_data`: the table restricted to the subjects found on disk. A row
      is kept exactly when its `ID` is carried by some visit-folder name. */
  method LoadData(t: Table, listings: seq<seq<string>>) returns (r: Option<Table>)
    requires |listings| == |TimePoints|
    ensures r.None? <==> "ID" !in t.columns
    ensures r.Some? ==> r.value.columns == t.columns && IsSubsequence(r.value.rows, t.rows)
    ensures r.Some? ==> forall row: seq<Cell> :: row in r.value.rows <==>
      row in t.rows && IdOnDisk(ColumnIndex(t.columns, "ID").value, listings, row)
    ensures r.Some? ==> forall row: seq<Cell> ::
      multiset(r.value.rows)[row] ==
      (if IdOnDisk(ColumnIndex(t.columns, "ID").value, listings, row) then multiset(t.rows)[row] else 0)
  {
    var ids := GetAllIds(listings);
    r := FilterByIds(t, ids);
    if r.Some? {
      var k := ColumnIndex(t.columns, "ID").value;
      forall row: seq<Cell> ensures IdIn(k, ids, row) <==> IdOnDisk(k, listings, row) {
        if IdOnDisk(k, listings, row) {
          var u, n :| 0 <= u < |listings| && n in listings[u] && FolderId(n) == Some(row[k].n);
        }
      }
    }
  }

  /** The columns shown on the page: `ID`, then every column whose name starts
      with `KL_`, in table order. */
  function ShownColumns(columns: seq<string>): (r: seq<string>)
    ensures r != [] && r[0] == "ID"
    ensures forall c :: c in r[1..] <==> c in columns && StartsWith(c, "KL_")
    ensures IsSubsequence(r[1..], columns)
  {
    var isKl := (c: string) => StartsWith(c, "KL_");
    FilterIsSubsequence(columns, isKl);
    ["ID"] + Filter(columns, isKl)
  }

  /** `df[names]`: the listed columns in the listed order; `None` when one of
      them is missing (`KeyError`). Each projected row holds, under each
      selected name, the cell the original row holds under that name. */
  function Project(t: Table, names: seq<string>): (r: Option<Table>)
    requires WellFormed(t)
    ensures r.Some? <==> forall j :: 0 <= j < |names| ==> names[j] in t.columns
    ensures r.Some? ==> r.value.columns == names && |r.value.rows| == |t.rows|
    ensures r.Some? ==> forall i, j :: 0 <= i < |t.rows| && 0 <= j < |names| ==>
      |r.value.rows[i]| == |names| &&
      r.value.rows[i][j] == t.rows[i][ColumnIndex(t.columns, names[j]).value]
  {
    if forall j :: 0 <= j < |names| ==> names[j] in t.columns then
      Some(Table(names, seq(|t.rows|, i requires 0 <= i < |t.rows| =>
        seq(|names|, j requires 0 <= j < |names| =>
          assert t.rows[i] in t.rows;
          t.rows[i][ColumnIndex(t.columns, names[j]).value]))))
    else None
  }

  /** The table shown on the page: the `ID` and `KL_*` columns, duplicate rows
      dropped (first occurrence kept). `None` when there is no `ID` column. */
  function KlView(t: Table): (r: Option<Table>)
    requires WellFormed(t)
    ensures r.None? <==> "ID" !in t.columns
    ensures r.Some? ==> r.value.columns == ShownColumns(t.columns)
    ensures r.Some? ==> NoDuplicates(r.value.rows) && IsSubsequence(r.value.rows, Project(t, ShownColumns(t.columns)).value.rows)
    ensures r.Some? ==> forall row :: row in r.value.rows <==> row in Project(t, ShownColumns(t.columns)).value.rows
    ensures r.Some? ==> forall i, j :: 0 <= i < j < |r.value.rows| ==>
      var projected := Project(t, ShownColumns(t.columns)).value.rows;
      IndexOf(projected, r.value.rows[i]) < IndexOf(projected, r.value.rows[j])
  {
    var names := ShownColumns(t.columns);
    assert "ID" !in t.columns ==> names[0] !in t.columns;
    match Project(t, names)
    case None => None
    case Some(p) =>
      DedupIsSubsequence(p.rows);
      DedupFirstOrder(p.rows);
      Some(Table(p.columns, Dedup(p.rows)))
  }
}
