/**
 * The suggestion collection and the three operations that change it: a
 * submission prepends the new row, the admin's status buttons set the status
 * of the rows with a given id, and the admin's delete button removes the rows
 * with a given id. The remote table and the browser's storage are both this
 * one in-memory sequence of rows.
 */
module Store {
  import opened Common
  import opened Strings
  import opened Suggestions

  /** `update({ status }).eq('id', id)`: every row with that id gets the new status; nothing else changes. */
  function WithStatus(rows: seq<Suggestion>, id: nat, status: string): (r: seq<Suggestion>)
    ensures |r| == |rows|
    decreases |rows|
  {
    if rows == [] then []
    else
      var head := if rows[0].id == id then rows[0].(status := status) else rows[0];
      [head] + WithStatus(rows[1..], id, status)
  }

  /** `delete().eq('id', id)`: the rows whose id differs, in their order. */
  function WithoutId(rows: seq<Suggestion>, id: nat): (r: seq<Suggestion>)
    ensures |r| <= |rows|
    ensures forall i :: 0 <= i < |r| ==> r[i].id != id
    decreases |rows|
  {
    if rows == [] then []
    else if rows[0].id == id then WithoutId(rows[1..], id)
    else [rows[0]] + WithoutId(rows[1..], id)
  }

  /** The number of rows carrying a given id. */
  function CountId(rows: seq<Suggestion>, id: nat): nat
    decreases |rows|
  {
    if rows == [] then 0 else (if rows[0].id == id then 1 else 0) + CountId(rows[1..], id)
  }

  /** No two rows share an id. */
  predicate UniqueIds(rows: seq<Suggestion>) {
    forall i, j :: 0 <= i < j < |rows| ==> rows[i].id != rows[j].id
  }

  /** Rows are listed newest first; an id is the millisecond clock reading taken when the row was created. */
  predicate NewestFirst(rows: seq<Suggestion>) {
    forall i, j :: 0 <= i < j < |rows| ==> rows[j].id <= rows[i].id
  }

  predicate AllWellFormed(rows: seq<Suggestion>) {
    forall i :: 0 <= i < |rows| ==> WellFormed(rows[i])
  }

  // ---------------------------------------------------------------------------
  // Status update

  /** A status update keeps the length; a row with the id differs from before in its status only, every other row is untouched. */
  lemma {:induction false} WithStatusAt(rows: seq<Suggestion>, id: nat, status: string)
    ensures |WithStatus(rows, id, status)| == |rows|
    ensures forall i :: 0 <= i < |rows| ==>
      WithStatus(rows, id, status)[i] == if rows[i].id == id then rows[i].(status := status) else rows[i]
    decreases |rows|
  {
    if rows != [] {
      WithStatusAt(rows[1..], id, status);
    }
  }

  /** Ids, names, categories, titles, bodies and dates of all rows are the same after a status update. */
  lemma OnlyStatusChanges(rows: seq<Suggestion>, id: nat, status: string)
    ensures |WithStatus(rows, id, status)| == |rows|
    ensures forall i :: 0 <= i < |rows| ==>
      WithStatus(rows, id, status)[i].(status := rows[i].status) == rows[i]
    ensures forall i :: 0 <= i < |rows| && rows[i].id == id ==> WithStatus(rows, id, status)[i].status == status
  {
    WithStatusAt(rows, id, status);
  }

  /** Updating an id no row has changes nothing; the store raises no error for it. */
  lemma {:induction false} WithStatusAbsent(rows: seq<Suggestion>, id: nat, status: string)
    requires CountId(rows, id) == 0
    ensures WithStatus(rows, id, status) == rows
    decreases |rows|
  {
    if rows != [] {
      WithStatusAbsent(rows[1..], id, status);
      assert [rows[0]] + rows[1..] == rows;
    }
  }

  /** Pressing the same status button twice is the same as pressing it once. */
  lemma {:induction false} WithStatusIdempotent(rows: seq<Suggestion>, id: nat, status: string)
    ensures WithStatus(WithStatus(rows, id, status), id, status) == WithStatus(rows, id, status)
    decreases |rows|
  {
    if rows != [] {
      WithStatusIdempotent(rows[1..], id, status);
      var once := WithStatus(rows, id, status);
      assert once[1..] == WithStatus(rows[1..], id, status);
    }
  }

  /** A status update keeps every row well formed when the new status is one of the known ones. */
  lemma WithStatusWellFormed(rows: seq<Suggestion>, id: nat, status: string)
    requires AllWellFormed(rows)
    requires status in Statuses
    ensures AllWellFormed(WithStatus(rows, id, status))
  {
    WithStatusAt(rows, id, status);
  }

  /** A status update keeps the rows newest first and their ids unique, since no id changes. */
  lemma WithStatusKeepsOrder(rows: seq<Suggestion>, id: nat, status: string)
    requires NewestFirst(rows) && UniqueIds(rows)
    ensures NewestFirst(WithStatus(rows, id, status)) && UniqueIds(WithStatus(rows, id, status))
  {
    WithStatusAt(rows, id, status);
  }

  // ---------------------------------------------------------------------------
  // Delete

  /** A row survives a delete exactly when it was there and carries another id. */
  lemma {:induction false} WithoutIdMembers(rows: seq<Suggestion>, id: nat)
    ensures forall s :: s in WithoutId(rows, id) <==> s in rows && s.id != id
    decreases |rows|
  {
    if rows != [] {
      WithoutIdMembers(rows[1..], id);
      assert rows == [rows[0]] + rows[1..];
    }
  }

  /** Deleting works segment by segment, so the surviving rows keep their relative order. */
  lemma {:induction false} WithoutIdAppend(a: seq<Suggestion>, b: seq<Suggestion>, id: nat)
    ensures WithoutId(a + b, id) == WithoutId(a, id) + WithoutId(b, id)
    decreases |a|
  {
    if a == [] {
      assert a + b == b;
    } else {
      WithoutIdAppend(a[1..], b, id);
      assert (a + b)[1..] == a[1..] + b;
    }
  }

  /** A delete removes as many rows as carry the id. */
  lemma {:induction false} WithoutIdLength(rows: seq<Suggestion>, id: nat)
    ensures |WithoutId(rows, id)| == |rows| - CountId(rows, id)
    decreases |rows|
  {
    if rows != [] {
      WithoutIdLength(rows[1..], id);
    }
  }

  /** Deleting an id no row has changes nothing; the store raises no error for it. */
  lemma {:induction false} WithoutIdAbsent(rows: seq<Suggestion>, id: nat)
    requires CountId(rows, id) == 0
    ensures WithoutId(rows, id) == rows
    decreases |rows|
  {
    if rows != [] {
      WithoutIdAbsent(rows[1..], id);
      assert [rows[0]] + rows[1..] == rows;
    }
  }

  lemma {:induction false} CountIdZero(rows: seq<Suggestion>, id: nat)
    requires forall i :: 0 <= i < |rows| ==> rows[i].id != id
    ensures CountId(rows, id) == 0
    decreases |rows|
  {
    if rows != [] {
      CountIdZero(rows[1..], id);
    }
  }

  /** Deleting the id of the one row that carries it removes that row and keeps the others around it. */
  lemma WithoutIdSingle(pre: seq<Suggestion>, x: Suggestion, post: seq<Suggestion>)
    requires CountId(pre, x.id) == 0 && CountId(post, x.id) == 0
    ensures WithoutId(pre + [x] + post, x.id) == pre + post
  {
    assert pre + [x] + post == pre + ([x] + post);
    WithoutIdAppend(pre, [x] + post, x.id);
    WithoutIdAbsent(pre, x.id);
    assert ([x] + post)[1..] == post;
    WithoutIdAbsent(post, x.id);
  }

  /** With unique ids, deleting the id of row `k` removes exactly that row. */
  lemma RemovesExactlyOne(rows: seq<Suggestion>, k: nat)
    requires UniqueIds(rows)
    requires k < |rows|
    ensures WithoutId(rows, rows[k].id) == rows[..k] + rows[k + 1..]
  {
    var id := rows[k].id;
    var pre, post := rows[..k], rows[k + 1..];
    assert rows == pre + [rows[k]] + post;
    forall i | 0 <= i < |pre| ensures pre[i].id != id {
      assert pre[i] == rows[i];
    }
    forall i | 0 <= i < |post| ensures post[i].id != id {
      assert post[i] == rows[k + 1 + i];
    }
    CountIdZero(pre, id);
    CountIdZero(post, id);
    WithoutIdSingle(pre, rows[k], post);
  }

  /** Every row left by a delete is a row of the input after position 0 or at it. */
  lemma WithoutIdFrom(rows: seq<Suggestion>, id: nat, k: nat)
    requires rows != [] && k < |WithoutId(rows[1..], id)|
    ensures exists j :: 1 <= j < |rows| && rows[j] == WithoutId(rows[1..], id)[k]
  {
    WithoutIdMembers(rows[1..], id);
    var s := WithoutId(rows[1..], id)[k];
    assert s in rows[1..];
    var j :| 0 <= j < |rows[1..]| && rows[1..][j] == s;
    assert rows[j + 1] == s;
  }

  /** A delete keeps the rows newest first. */
  lemma {:induction false} WithoutIdNewestFirst(rows: seq<Suggestion>, id: nat)
    requires NewestFirst(rows)
    ensures NewestFirst(WithoutId(rows, id))
    decreases |rows|
  {
    if rows != [] {
      WithoutIdNewestFirst(rows[1..], id);
      var r := WithoutId(rows[1..], id);
      forall k | 0 <= k < |r| ensures r[k].id <= rows[0].id {
        WithoutIdFrom(rows, id, k);
      }
    }
  }

  /** A delete keeps the ids unique. */
  lemma {:induction false} WithoutIdUnique(rows: seq<Suggestion>, id: nat)
    requires UniqueIds(rows)
    ensures UniqueIds(WithoutId(rows, id))
    decreases |rows|
  {
    if rows != [] {
      WithoutIdUnique(rows[1..], id);
      var r := WithoutId(rows[1..], id);
      forall k | 0 <= k < |r| ensures r[k].id != rows[0].id {
        WithoutIdFrom(rows, id, k);
      }
    }
  }

  /** A delete keeps every row well formed. */
  lemma WithoutIdWellFormed(rows: seq<Suggestion>, id: nat)
    requires AllWellFormed(rows)
    ensures AllWellFormed(WithoutId(rows, id))
  {
    WithoutIdMembers(rows, id);
    var r := WithoutId(rows, id);
    forall k | 0 <= k < |r| ensures WellFormed(r[k]) {
      assert r[k] in rows;
    }
  }

  // ---------------------------------------------------------------------------
  // Submission

  /** A new row whose id is the latest clock reading keeps the list newest first and its ids unique. */
  lemma PrependNewest(rows: seq<Suggestion>, item: Suggestion)
    requires forall i :: 0 <= i < |rows| ==> rows[i].id < item.id
    ensures NewestFirst(rows) ==> NewestFirst([item] + rows)
    ensures UniqueIds(rows) ==> UniqueIds([item] + rows)
  {
  }

  /** Putting a well-formed suggestion in front keeps every row well formed. */
  lemma PrependWellFormed(rows: seq<Suggestion>, item: Suggestion)
    requires AllWellFormed(rows) && WellFormed(item)
    ensures AllWellFormed([item] + rows)
  {
    assert forall i :: 0 < i < |rows| + 1 ==> ([item] + rows)[i] == rows[i - 1];
  }

  // ---------------------------------------------------------------------------
  // The submission as the application wires it

  /** The two collections the application keeps: browser storage, which the form writes, and the remote table, which the dashboards list. */
  datatype Collections = Collections(browser: seq<Suggestion>, remote: seq<Suggestion>)

  /**
   * `handleSend` as wired: the form writes the new row to browser storage
   * and calls `onSubmit`, but the application passes its refresh callback as
   * `onSubmitSuccess`, so `onSubmit` is undefined and the remote table the
   * dashboards list is never touched.
   */
  function SendAsWired(c: Collections, form: Form, id: nat, tanggal: string): (r: Collections)
    ensures r.remote == c.remote
    ensures NewSuggestion(form, id, tanggal).Failure? ==> r == c
    ensures NewSuggestion(form, id, tanggal).Success? ==>
      r.browser == [NewSuggestion(form, id, tanggal).value] + c.browser
  {
    match NewSuggestion(form, id, tanggal)
    case Failure(_) => c
    case Success(item) => c.(browser := [item] + c.browser)
  }

  /** An accepted submission, reported to the student as sent, never reaches the list the dashboards show. */
  lemma AcceptedButNotListed(id: nat, tanggal: string)
    ensures var form := Form("", "Fasilitas", "Wi-Fi lambat", "Tolong diperbaiki", true);
      && NewSuggestion(form, id, tanggal).Success?
      && SendAsWired(Collections([], []), form, id, tanggal).remote == []
  {
    var form := Form("", "Fasilitas", "Wi-Fi lambat", "Tolong diperbaiki", true);
    assert form.judul[0] == 'W' && form.isi[0] == 'T';
    VisibleTextAccepted(form, id, tanggal, 0, 0);
  }

  /** The collection of suggestions, changed in place by the form and by the admin dashboard. */
  class SuggestionTable {
    var rows: seq<Suggestion>

    /**
     * Every row satisfies what the form guarantees of a new suggestion, no
     * two rows share an id, and the rows are listed newest first.
     */
    ghost predicate Valid()
      reads this
    {
      AllWellFormed(rows) && UniqueIds(rows) && NewestFirst(rows)
    }

    /** The collection as it was read back (`existing`). */
    constructor (existing: seq<Suggestion>)
      ensures rows == existing
      ensures AllWellFormed(existing) && UniqueIds(existing) && NewestFirst(existing) ==> Valid()
    {
      rows := existing;
    }

    /**
     * `handleSend`: a form with a blank title or body is rejected with the
     * message and the collection is untouched; otherwise the new row is put
     * in front of the existing ones.
     */
    method Send(form: Form, id: nat, tanggal: string) returns (r: Result<Suggestion, string>)
      modifies this
      ensures r == NewSuggestion(form, id, tanggal)
      ensures r.Failure? <==> Blank(form.judul) || Blank(form.isi)
      ensures r.Failure? ==> rows == old(rows)
      ensures r.Success? ==> rows == [r.value] + old(rows) && |rows| == |old(rows)| + 1
      ensures old(Valid()) && (forall i :: 0 <= i < |old(rows)| ==> old(rows)[i].id < id) ==> Valid()
    {
      r := NewSuggestion(form, id, tanggal);
      if r.Success? {
        if Valid() && forall i :: 0 <= i < |rows| ==> rows[i].id < id {
          PrependWellFormed(rows, r.value);
          PrependNewest(rows, r.value);
        }
        rows := [r.value] + rows;
      }
    }

    /** `updateStatus(id, status)`. */
    method UpdateStatus(id: nat, status: string)
      modifies this
      ensures rows == WithStatus(old(rows), id, status)
      ensures |rows| == |old(rows)|
      ensures forall i :: 0 <= i < |rows| ==>
        rows[i] == if old(rows)[i].id == id then old(rows)[i].(status := status) else old(rows)[i]
      ensures old(Valid()) && status in Statuses ==> Valid()
    {
      WithStatusAt(rows, id, status);
      if Valid() && status in Statuses {
        WithStatusWellFormed(rows, id, status);
        WithStatusKeepsOrder(rows, id, status);
      }
      rows := WithStatus(rows, id, status);
    }

    /** `removeRow(id)` once the user has confirmed. */
    method RemoveRow(id: nat)
      modifies this
      ensures rows == WithoutId(old(rows), id)
      ensures forall s :: s in rows <==> s in old(rows) && s.id != id
      ensures |rows| == |old(rows)| - CountId(old(rows), id)
      ensures old(Valid()) ==> Valid()
    {
      WithoutIdMembers(rows, id);
      WithoutIdLength(rows, id);
      if Valid() {
        WithoutIdWellFormed(rows, id);
        WithoutIdNewestFirst(rows, id);
        WithoutIdUnique(rows, id);
      }
      rows := WithoutId(rows, id);
    }
  }
}
