/**
 * A suggestion ("aspirasi") and the submission rule of the form that creates
 * one: the title and the body are required, the author's name falls back to
 * "Anonim", and every new suggestion starts with status "baru".
 */
module Suggestions {
  import opened Common
  import opened Strings

  /**
   * One row of the `saran` table. Categories and statuses are stored as
   * text: the form offers four categories and the admin buttons two
   * statuses, but nothing checks them when a row is stored.
   */
  datatype Suggestion = Suggestion(
    id: nat,
    nama: string,
    kategori: string,
    judul: string,
    isi: string,
    status: string,
    tanggal: string)

  /** What the submission form holds when it is sent. */
  datatype Form = Form(nama: string, kategori: string, judul: string, isi: string, anon: bool)

  const Anonim: string := "Anonim"

  const StatusBaru: string := "baru"
  const StatusDiproses: string := "diproses"
  const StatusSelesai: string := "selesai"
  const Statuses: set<string> := {StatusBaru, StatusDiproses, StatusSelesai}

  /** The message shown when a required field is missing. */
  const MissingFields: string := "Judul dan isi wajib diisi."

  /** `anon ? "Anonim" : nama || "Anonim"`: the empty name is falsy. */
  function AuthorName(form: Form): (name: string)
    ensures name != []
    ensures form.anon ==> name == Anonim
    ensures !form.anon && form.nama == [] ==> name == Anonim
    ensures !form.anon && form.nama != [] ==> name == form.nama
  {
    if form.anon then Anonim else if form.nama != [] then form.nama else Anonim
  }

  /** What every stored suggestion satisfies when it was created by the form and changed only by the admin buttons. */
  predicate WellFormed(s: Suggestion) {
    && !Blank(s.judul)
    && !Blank(s.isi)
    && s.nama != []
    && s.status in Statuses
  }

  /**
   * The validation and record construction of `handleSend`; the clock
   * readings `Date.now()` and `new Date().toISOString()` are the
   * parameters `id` and `tanggal`.
   */
  function NewSuggestion(form: Form, id: nat, tanggal: string): (r: Result<Suggestion, string>)
    ensures r.Failure? <==> Blank(form.judul) || Blank(form.isi)
    ensures r.Failure? ==> r.error == MissingFields
    ensures r.Success? ==>
      && r.value.id == id
      && r.value.tanggal == tanggal
      && r.value.status == StatusBaru
      && r.value.nama == AuthorName(form)
      && r.value.kategori == form.kategori
      && r.value.judul == form.judul
      && r.value.isi == form.isi
    ensures r.Success? ==> WellFormed(r.value)
  {
    if Blank(form.judul) || Blank(form.isi) then Failure(MissingFields)
    else Success(Suggestion(id, AuthorName(form), form.kategori, form.judul, form.isi, StatusBaru, tanggal))
  }

  /** A title or body made only of spaces, tabs and line breaks is rejected; the stored text is not trimmed. */
  lemma WhitespaceOnlyRejected(form: Form, id: nat, tanggal: string)
    requires (forall i :: 0 <= i < |form.judul| ==> IsTrimmable(form.judul[i]))
          || (forall i :: 0 <= i < |form.isi| ==> IsTrimmable(form.isi[i]))
    ensures NewSuggestion(form, id, tanggal) == Failure(MissingFields)
  {
    BlankIffAllTrimmable(form.judul);
    BlankIffAllTrimmable(form.isi);
  }

  /** A title and a body that each hold one character `trim` keeps are accepted verbatim. */
  lemma VisibleTextAccepted(form: Form, id: nat, tanggal: string, i: nat, j: nat)
    requires i < |form.judul| && !IsTrimmable(form.judul[i])
    requires j < |form.isi| && !IsTrimmable(form.isi[j])
    ensures NewSuggestion(form, id, tanggal).Success?
    ensures NewSuggestion(form, id, tanggal).value.judul == form.judul
    ensures NewSuggestion(form, id, tanggal).value.isi == form.isi
  {
    BlankIffAllTrimmable(form.judul);
    BlankIffAllTrimmable(form.isi);
  }
}
