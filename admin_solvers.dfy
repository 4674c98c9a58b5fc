/** The admin list of all solves (src/app/admin/solvers/page.tsx): paging
    through the solves 100 at a time, searching by user name, deleting a
    solve after confirmation, and the shortened user name in each row. */
module AdminSolvers {
  import opened Base
  import opened Strings
  import opened Sequences
  import Auth

  datatype SolverRow = SolverRow(solveId: string, username: string, challengeTitle: string, solvedAt: string)

  /** What the confirmation dialog shows about the solve to delete. */
  datatype DeleteDetail = DeleteDetail(username: string, challengeTitle: string)

  const PAGE_SIZE: nat := 100

  /** The rows `getSolversAll(100, start)` returns from the server's list. */
  function PageOf(table: seq<SolverRow>, start: nat): (r: seq<SolverRow>)
    ensures |r| <= PAGE_SIZE
    ensures start <= |table| ==> r == table[start..Min(start + PAGE_SIZE, |table|)]
  {
    if start <= |table| then table[start..Min(start + PAGE_SIZE, |table|)] else []
  }

  function Min(a: int, b: int): int { if a <= b then a else b }

  /** The rows `getSolversAll` and `getSolversByUsername` return for an RPC
      answer: the answer's rows, or [] for an RPC error or missing data.
      Neither wrapper throws. */
  function RpcRows(reply: Option<seq<SolverRow>>): (r: seq<SolverRow>)
    ensures reply.None? ==> r == []
    ensures reply.Some? ==> r == reply.value
  {
    if reply.Some? then reply.value else []
  }

  /** `solvers.find((s) => s.solve_id === id)`. */
  function FindById(rows: seq<SolverRow>, id: string): (r: Option<SolverRow>)
    ensures r.None? <==> forall k :: 0 <= k < |rows| ==> rows[k].solveId != id
    ensures r.Some? ==> exists k :: (0 <= k < |rows| && rows[k] == r.value && r.value.solveId == id
      && forall j :: 0 <= j < k ==> rows[j].solveId != id)
  {
    if rows == [] then None
    else if rows[0].solveId == id then Some(rows[0])
    else
      var r := FindById(rows[1..], id);
      if r.Some? then
        var k :| (0 <= k < |rows[1..]| && rows[1..][k] == r.value && r.value.solveId == id
          && forall j :: 0 <= j < k ==> rows[1..][j].solveId != id);
        assert rows[k + 1] == r.value;
        r
      else r
  }

  /** Where the page goes once the session is known. */
  datatype Access = Waiting | Redirect | LoadFirstPage

  /** The mount effect: wait while the session loads, send anyone who is
      not a signed-in admin to /challenges, otherwise load page one. */
  function Gate(loading: bool, signedIn: bool, admin: Json): (r: Access)
    ensures r == LoadFirstPage <==> !loading && signedIn && Truthy(admin)
    ensures loading <==> r == Waiting
  {
    if loading then Waiting
    else if !signedIn then Redirect
    else if !Truthy(admin) then Redirect
    else LoadFirstPage
  }

  /** The admin check's outcome decides the gate. */
  lemma GateFollowsAdminCheck(reply: Auth.AdminReply)
    ensures Gate(false, true, Auth.IsAdmin(reply)) == LoadFirstPage <==> reply.AdminData? && Truthy(reply.data)
  {
  }

  class SolversPage {
    var solvers: seq<SolverRow>
    var offset: int
    var hasMore: bool
    var searchUser: string
    var searching: bool
    var confirmOpen: bool
    var pendingDelete: Option<string>
    var pendingDetail: Option<DeleteDetail>

    constructor()
      ensures solvers == [] && offset == 0 && hasMore && searchUser == "" && !searching
      ensures !confirmOpen && pendingDelete.None? && pendingDetail.None?
    {
      solvers := [];
      offset := 0;
      hasMore := true;
      searchUser := "";
      searching := false;
      confirmOpen := false;
      pendingDelete := None;
      pendingDetail := None;
    }

    /** The list holds the first `offset` rows of `table` (all of them
        once the end is passed), and "Load More" is offered while the last
        page came back full. */
    ghost predicate ShowsPrefixOf(table: seq<SolverRow>)
      reads this
    {
      offset >= 0 && offset % PAGE_SIZE == 0
      && solvers == table[..Min(offset, |table|)]
      && (!hasMore ==> offset >= |table|)
    }

    /** `fetchSolvers(start)`: `reply` is the RPC's answer, None for an
        RPC error or no data, which `getSolversAll` turns into [] rather
        than throwing. Page one replaces the list, a later page is
        appended, so a failed first page empties the table. */
    method FetchSolvers(start: nat, reply: Option<seq<SolverRow>>)
      modifies this
      ensures solvers == (if start == 0 then RpcRows(reply) else old(solvers) + RpcRows(reply))
      ensures offset == start + PAGE_SIZE && (hasMore <==> |RpcRows(reply)| == PAGE_SIZE)
      ensures reply.None? ==> !hasMore
      ensures reply.None? && start == 0 ==> solvers == []
      ensures reply.None? && start != 0 ==> solvers == old(solvers)
      ensures searchUser == old(searchUser) && searching == old(searching) && confirmOpen == old(confirmOpen)
      ensures pendingDelete == old(pendingDelete) && pendingDetail == old(pendingDetail)
    {
      var data := RpcRows(reply);
      solvers := if start == 0 then data else solvers + data;
      offset := start + PAGE_SIZE;
      hasMore := |data| == PAGE_SIZE;
    }

    /** Loading page one from the server shows the start of its list. */
    method LoadFirst(table: seq<SolverRow>)
      modifies this
      ensures ShowsPrefixOf(table)
      ensures solvers == Take(table, PAGE_SIZE)
    {
      FetchSolvers(0, Some(PageOf(table, 0)));
    }

    /** The "Load More" button: the next page is appended, so the list
        stays the start of the server's list. */
    method LoadMore(table: seq<SolverRow>)
      requires ShowsPrefixOf(table)
      modifies this
      ensures ShowsPrefixOf(table)
      ensures |solvers| >= |old(solvers)| && old(solvers) <= solvers
    {
      var start := offset;
      if start <= |table| {
        assert PageOf(table, start) == table[start..Min(start + PAGE_SIZE, |table|)];
      }
      FetchSolvers(start, Some(PageOf(table, start)));
      if start == 0 {
        assert old(solvers) == [];
      } else {
        if start <= |table| {
          assert table[..Min(start + PAGE_SIZE, |table|)]
              == table[..start] + table[start..Min(start + PAGE_SIZE, |table|)];
        }
      }
    }

    /** The search button. A blank query reloads page one (`firstPage` is
        the RPC's answer); otherwise `found` is the name search's RPC answer,
        None for an error, which `getSolversByUsername` turns into []; the
        result replaces the list and ends paging. */
    method Search(firstPage: Option<seq<SolverRow>>, found: Option<seq<SolverRow>>)
      modifies this
      ensures Trim(searchUser) == "" ==>
        solvers == RpcRows(firstPage) && offset == PAGE_SIZE && (hasMore <==> |RpcRows(firstPage)| == PAGE_SIZE)
      ensures Trim(searchUser) != "" ==> solvers == RpcRows(found) && !hasMore && offset == old(offset)
      ensures Trim(searchUser) != "" && found.None? ==> solvers == []
      ensures searchUser == old(searchUser)
      ensures Trim(searchUser) == "" ==> searching == old(searching)
      ensures Trim(searchUser) != "" ==> !searching
      ensures confirmOpen == old(confirmOpen) && pendingDelete == old(pendingDelete) && pendingDetail == old(pendingDetail)
    {
      if Trim(searchUser) == "" {
        FetchSolvers(0, firstPage);
        return;
      }
      searching := true;
      solvers := RpcRows(found);
      hasMore := false;
      searching := false;
    }

    /** The reset button: the query is cleared and page one reloaded. */
    method Reset(firstPage: Option<seq<SolverRow>>)
      modifies this
      ensures searchUser == ""
      ensures solvers == RpcRows(firstPage) && offset == PAGE_SIZE
      ensures firstPage.None? ==> solvers == [] && !hasMore
    {
      searchUser := "";
      FetchSolvers(0, firstPage);
    }

    /** `askDelete`: remembers the id and the matching row's details and
        opens the dialog. */
    method AskDelete(id: string)
      modifies this
      ensures pendingDelete == Some(id) && confirmOpen
      ensures pendingDetail.None? <==> forall k :: 0 <= k < |solvers| ==> solvers[k].solveId != id
      ensures pendingDetail.Some? ==>
        exists k :: 0 <= k < |solvers| && solvers[k].solveId == id &&
          pendingDetail == Some(DeleteDetail(solvers[k].username, solvers[k].challengeTitle))
      ensures solvers == old(solvers) && offset == old(offset) && hasMore == old(hasMore)
    {
      var rows := solvers;
      var solver := FindById(rows, id);
      pendingDelete := Some(id);
      if solver.Some? {
        pendingDetail := Some(DeleteDetail(solver.value.username, solver.value.challengeTitle));
      } else {
        pendingDetail := None;
      }
      confirmOpen := true;
      assert solvers == rows;
    }

    /** `doDelete`: when the delete succeeds, every row with that id goes
        and the others stay in order; when it fails the list stays. */
    method DoDelete(id: string, deleted: bool)
      modifies this
      ensures !deleted ==> solvers == old(solvers)
      ensures deleted ==> forall s :: s in solvers <==> s in old(solvers) && s.solveId != id
      ensures deleted ==> IsSubseq(solvers, old(solvers))
      ensures offset == old(offset) && hasMore == old(hasMore) && confirmOpen == old(confirmOpen)
      ensures pendingDelete == old(pendingDelete) && pendingDetail == old(pendingDetail) && searchUser == old(searchUser)
    {
      if deleted {
        var keep := (s: SolverRow) => s.solveId != id;
        FilterSubseq(solvers, keep);
        solvers := Filter(solvers, keep);
      }
    }

    /** The dialog's confirm button: deletes the pending id, if any, then
        clears it and closes the dialog. */
    method Confirm(deleted: bool)
      modifies this
      ensures Auth.Filled(old(pendingDelete)) && deleted ==>
        forall s :: s in solvers <==> s in old(solvers) && s.solveId != old(pendingDelete).value
      ensures Auth.Filled(old(pendingDelete)) ==> pendingDelete.None? && pendingDetail.None? && !confirmOpen
      ensures !Auth.Filled(old(pendingDelete)) ==>
        solvers == old(solvers) && pendingDelete == old(pendingDelete) && confirmOpen == old(confirmOpen)
    {
      if Auth.Filled(pendingDelete) {
        DoDelete(pendingDelete.value, deleted);
        pendingDelete := None;
        pendingDetail := None;
        confirmOpen := false;
      }
    }
  }

  /** The user name as the row shows it: names over 20 characters are cut
      to 30 characters and "..." added. */
  function DisplayNameAsWritten(name: string): (r: string)
    ensures |r| <= 33
    ensures |name| <= 20 ==> r == name
    ensures 20 < |name| <= 30 ==> r == name + "..."
    ensures |name| > 30 ==> r == name[..30] + "..." && r[..30] < name
  {
    if |name| > 20 then Take(name, 30) + "..." else name
  }

  /** A 25-character name is not shortened at all: it is shown whole, with
      "..." after it although nothing was cut. */
  lemma AsWrittenAddsDotsToWholeName()
    ensures var name := "abcdefghijklmnopqrstuvwxy";
      |name| == 25 && DisplayNameAsWritten(name) == name + "..."
  {
  }

  /** The limit as meant: names over 20 characters show their first 20 and
      "...". */
  function DisplayName(name: string): (r: string)
    ensures |r| <= 23
    ensures |name| <= 20 ==> r == name
    ensures |name| > 20 ==> r == name[..20] + "..." && r[..20] <= name
  {
    if |name| > 20 then Take(name, 20) + "..." else name
  }

  /** A shortened name always drops something: the visible part is a
      proper prefix of the name. */
  lemma ShortenedDropsText(name: string)
    requires |name| > 20
    ensures var r := DisplayName(name); r[..|r| - 3] < name
  {
  }
}
