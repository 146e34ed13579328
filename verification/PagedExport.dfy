/** The paged export of the dashboard client, for transactions and for audit rows alike. */
module PagedExport {
  import opened Wrappers

  /** One reply. The server may leave the total out. */
  datatype Page<T> = Page(rows: seq<T>, total: Option<nat>)

  /** The reply for an offset and a limit. */
  type Server<!T> = (nat, int) -> Page<T>

  datatype Exported<T> = Exported(rows: seq<T>, total: nat, truncated: bool)

  function Min(a: int, b: int): int {
    if a < b then a else b
  }

  /** The most rows a limit stands for: the server raises it to one and lowers it to its cap. */
  function Clamp(limit: int, cap: nat): (most: nat)
    ensures most <= cap
  {
    if limit < 1 then Min(1, cap) else Min(limit, cap)
  }

  /** Every reply is a run of consecutive rows of `all` starting at the offset, no longer than the
      limit asks for, perhaps shorter. */
  ghost predicate ServesSlices<T(!new)>(server: Server<T>, all: seq<T>) {
    forall offset: nat, limit: int :: IsSlice(server(offset, limit).rows, all, offset, limit)
  }

  ghost predicate IsSlice<T>(rows: seq<T>, all: seq<T>, offset: nat, limit: int) {
    && |rows| <= Clamp(limit, |rows|)
    && (rows != [] ==> offset + |rows| <= |all| && rows == all[offset..offset + |rows|])
  }

  /** Every reply is as long as the clamped limit and the list allow. */
  ghost predicate ServesFullSlices<T(!new)>(server: Server<T>, all: seq<T>, cap: nat) {
    && ServesSlices(server, all)
    && forall offset: nat, limit: int | offset <= |all| ::
         |server(offset, limit).rows| == Min(Clamp(limit, cap), |all| - offset)
  }

  ghost predicate ReportsTotal<T(!new)>(server: Server<T>, n: nat) {
    forall offset: nat, limit: int :: server(offset, limit).total == Some(n)
  }

  /** How far an export of n rows gets: a first page that the server's cap cuts short looks like the last. */
  function Reach(n: nat, maxRows: int, pageSize: int, cap: nat): nat {
    if maxRows <= 0 then 0
    else if Min(pageSize, maxRows) <= cap then Min(maxRows, n)
    else Min(cap, n)
  }

  method Export<T(!new)>(server: Server<T>, maxRows: int, pageSize: int) returns (r: Exported<T>)
    ensures maxRows <= 0 ==> r == Exported([], 0, false)
    ensures r.truncated <==> r.total > |r.rows|
    ensures forall all | ServesSlices(server, all) :: r.rows <= all && |r.rows| <= if maxRows < 0 then 0 else maxRows
    ensures forall all, cap: nat | cap > 0 && ServesFullSlices(server, all, cap) ::
              var n := Reach(|all|, maxRows, pageSize, cap); n <= |all| && r.rows == all[..n]
    ensures forall all | maxRows > 0 && ServesSlices(server, all) && ReportsTotal(server, |all|) ::
              r.total == |all| && (r.truncated <==> r.rows != all)
  {
    var collected: seq<T> := [];
    var total: nat := 0;
    var offset: nat := 0;
    var last := false;
    while |collected| < maxRows && !last
      invariant offset <= |collected|
      invariant !last ==> offset == |collected|
      invariant maxRows <= 0 ==> collected == [] && total == 0
      invariant forall all | ServesSlices(server, all) :: Gathered(collected, all, maxRows)
      invariant forall all, cap: nat | cap > 0 && ServesFullSlices(server, all, cap) ::
                  OnCourse(|collected|, last, |all|, maxRows, pageSize, cap)
      invariant forall n: nat | ReportsTotal(server, n) :: total == n || (collected == [] && !last)
      decreases maxRows - |collected|, if last then 0 else 1
    {
      var limit := Min(pageSize, maxRows - |collected|);
      var page := server(offset, limit);
      total := if page.total.Some? then page.total.value else total;
      forall all | ServesSlices(server, all) ensures Gathered(collected + page.rows, all, maxRows) {
        assert IsSlice(page.rows, all, offset, limit);
      }
      forall all, cap: nat | cap > 0 && ServesFullSlices(server, all, cap)
        ensures OnCourse(|collected + page.rows|, page.rows == [] || |page.rows| < limit, |all|, maxRows, pageSize, cap)
      {
        assert Gathered(collected, all, maxRows);
        StaysOnCourse(|collected|, |page.rows|, limit, |all|, maxRows, pageSize, cap);
      }
      if page.rows == [] {
        last := true;
      } else {
        collected := collected + page.rows;
        if |page.rows| < limit {
          last := true;
        } else {
          offset := offset + |page.rows|;
        }
      }
    }
    r := Exported(collected, total, total > |collected|);
  }

  ghost predicate Gathered<T>(collected: seq<T>, all: seq<T>, maxRows: int) {
    collected <= all && (maxRows > 0 ==> |collected| <= maxRows)
  }

  /** What is gathered against a server of full slices: all that can be reached once the loop is over,
      and before that less, unless the row limit is met. */
  ghost predicate OnCourse(gathered: nat, last: bool, n: nat, maxRows: int, pageSize: int, cap: nat) {
    && (last || gathered >= maxRows ==> gathered == Reach(n, maxRows, pageSize, cap))
    && (!last && 0 < gathered ==> Min(pageSize, maxRows) <= cap)
    && gathered <= n
  }

  lemma StaysOnCourse(gathered: nat, got: nat, limit: int, n: nat, maxRows: int, pageSize: int, cap: nat)
    requires cap > 0 && gathered < maxRows && OnCourse(gathered, false, n, maxRows, pageSize, cap)
    requires limit == Min(pageSize, maxRows - gathered) && got == Min(Clamp(limit, cap), n - gathered)
    ensures OnCourse(gathered + got, got == 0 || got < limit, n, maxRows, pageSize, cap)
  {
  }

  /** An export gets as far as its row limit lets it exactly when its first page fits the server's cap
      or the whole list does. */
  lemma CapCutsNothingIff(n: nat, maxRows: int, pageSize: int, cap: nat)
    requires maxRows > 0
    ensures Reach(n, maxRows, pageSize, cap) == Min(maxRows, n) <==> Min(pageSize, maxRows) <= cap || n <= cap
  {
  }

  function FullSlice<T>(all: seq<T>, offset: nat, limit: int, cap: nat): seq<T> {
    if offset <= |all| then all[offset..offset + Min(Clamp(limit, cap), |all| - offset)] else []
  }

  /** A server of full slices that reports the total. */
  function FullServer<T>(all: seq<T>, cap: nat): Server<T> {
    (offset: nat, limit: int) => Page(FullSlice(all, offset, limit, cap), Some(|all|))
  }

  lemma FullServerServes<T(!new)>(all: seq<T>, cap: nat)
    ensures ServesFullSlices(FullServer(all, cap), all, cap) && ReportsTotal(FullServer(all, cap), |all|)
  {
    forall offset: nat, limit: int ensures IsSlice(FullServer(all, cap)(offset, limit).rows, all, offset, limit) {
      assert FullServer(all, cap)(offset, limit).rows == FullSlice(all, offset, limit, cap);
    }
  }

  /** Two rows, a page size of two and a server that sends one row a page: the export stops after the
      first page, although no row limit asks it to. */
  method StopsAfterTheCap<T(!new)>(a: T, b: T) returns (r: Exported<T>)
    ensures r.rows == [a] && r.total == 2 && r.truncated
  {
    FullServerServes([a, b], 1);
    r := Export(FullServer([a, b], 1), 2, 2);
    assert r.rows == [a, b][..Reach(2, 2, 2, 1)];
  }
}
