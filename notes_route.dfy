/** The note collection handlers of app/api/notes/route.ts over an
    in-memory note table.

    `auth()` is the session user id it yields (None when there is no
    session); the database is a sequence of rows; the storage call made
    by a handler either succeeds or throws, which `storageFails` says.
    Ids and timestamps generated by the database are inputs. */
module NotesRoute {
  import opened Common
  import Schemas

  /** A row of the note table. */
  datatype NoteRow = NoteRow(id: string, userId: string, title: string, content: string,
                             createdAt: int, updatedAt: int)

  datatype NotesBody =
    | ErrorBody(error: string)
    | NoteList(notes: seq<NoteRow>)
    | CreatedNote(note: NoteRow)

  /** `NextResponse.json(body, { status })`. */
  datatype Reply = Reply(status: int, body: NotesBody)

  const Unauthorized := "Unauthorized"
  const MissingFields := "Title and content are required"
  const SomethingWentWrong := "Something went wrong"

  /** `session?.user?.id` is truthy: present and not the empty string. */
  predicate Authenticated(session: Option<string>)
  {
    session.Some? && session.value != ""
  }

  /** A body value passes `!value` being false: present and not "". */
  predicate Present(value: Option<string>)
  {
    value.Some? && value.value != ""
  }

  /** `where: { userId }`: the rows of one user, in table order. */
  function Owned(rows: seq<NoteRow>, userId: string): (r: seq<NoteRow>)
    ensures forall n :: n in r <==> n in rows && n.userId == userId
    ensures forall n :: multiset(r)[n] == if n.userId == userId then multiset(rows)[n] else 0
  {
    Filter(rows, (n: NoteRow) => n.userId == userId)
  }

  /** A new row joins the end of its owner's rows and no one else's. */
  lemma OwnedSnoc(rows: seq<NoteRow>, row: NoteRow, userId: string)
    ensures Owned(rows + [row], userId) == Owned(rows, userId) + (if row.userId == userId then [row] else [])
  {
    FilterSnoc(rows, row, (n: NoteRow) => n.userId == userId);
  }

  /** `orderBy: { updatedAt: "desc" }`: latest update first. */
  predicate SortedByUpdatedDesc(s: seq<NoteRow>)
  {
    forall i, j :: 0 <= i < j < |s| ==> s[i].updatedAt >= s[j].updatedAt
  }

  /** A row no older than every row of a sorted list may go in front of it. */
  lemma SortedCons(h: NoteRow, t: seq<NoteRow>)
    requires SortedByUpdatedDesc(t)
    requires forall e :: e in t ==> e.updatedAt <= h.updatedAt
    ensures SortedByUpdatedDesc([h] + t)
  {
    forall i, j | 0 <= i < j < |[h] + t| ensures ([h] + t)[i].updatedAt >= ([h] + t)[j].updatedAt {
      if i == 0 {
        assert ([h] + t)[j] == t[j - 1];
        assert t[j - 1] in t;
      } else {
        assert ([h] + t)[i] == t[i - 1] && ([h] + t)[j] == t[j - 1];
      }
    }
  }

  /** A bound on every row survives adding one more row under the bound. */
  lemma NoneNewerThan(r: seq<NoteRow>, t: seq<NoteRow>, x: NoteRow, bound: int)
    requires multiset(r) == multiset(t) + multiset{x}
    requires forall e :: e in t ==> e.updatedAt <= bound
    requires x.updatedAt <= bound
    ensures forall e :: e in r ==> e.updatedAt <= bound
  {
    forall e | e in r ensures e.updatedAt <= bound {
      assert e in multiset(r);
      if e != x {
        assert e in multiset(t);
      }
    }
  }

  /** Insert `x` into a list sorted by `updatedAt`, descending, ahead of the
      rows it ties with. */
  function InsertByUpdated(x: NoteRow, s: seq<NoteRow>): (r: seq<NoteRow>)
    requires SortedByUpdatedDesc(s)
    ensures SortedByUpdatedDesc(r)
    ensures multiset(r) == multiset(s) + multiset{x}
    decreases |s|
  {
    if s == [] || s[0].updatedAt <= x.updatedAt then
      SortedCons(x, s);
      [x] + s
    else
      var tail := s[1..];
      assert s == [s[0]] + tail;
      assert forall e :: e in tail ==> e.updatedAt <= s[0].updatedAt by {
        forall e | e in tail ensures e.updatedAt <= s[0].updatedAt {
          var k :| 0 <= k < |tail| && tail[k] == e;
          assert s[k + 1] == e;
        }
      }
      var rest := InsertByUpdated(x, tail);
      NoneNewerThan(rest, tail, x, s[0].updatedAt);
      SortedCons(s[0], rest);
      [s[0]] + rest
  }

  /** Sort by `updatedAt`, latest first. The database leaves the order of
      rows with equal timestamps open; this sort keeps table order for them. */
  function SortByUpdatedDesc(s: seq<NoteRow>): (r: seq<NoteRow>)
    ensures SortedByUpdatedDesc(r)
    ensures multiset(r) == multiset(s)
    decreases |s|
  {
    if s == [] then []
    else
      assert s == [s[0]] + s[1..];
      InsertByUpdated(s[0], SortByUpdatedDesc(s[1..]))
  }

  /** `GET /api/notes`. */
  function ListNotes(rows: seq<NoteRow>, session: Option<string>, storageFails: bool): (r: Reply)
    ensures !Authenticated(session) ==> r == Reply(401, ErrorBody(Unauthorized))
    ensures Authenticated(session) && storageFails ==> r == Reply(500, ErrorBody(SomethingWentWrong))
    ensures Authenticated(session) && !storageFails ==>
              && r.status == 200 && r.body.NoteList?
              && SortedByUpdatedDesc(r.body.notes)
              && (forall n :: multiset(r.body.notes)[n] == if n.userId == session.value then multiset(rows)[n] else 0)
              && (forall n :: n in r.body.notes <==> n in rows && n.userId == session.value)
  {
    if !Authenticated(session) then Reply(401, ErrorBody(Unauthorized))
    else if storageFails then Reply(500, ErrorBody(SomethingWentWrong))
    else
      var listed := SortByUpdatedDesc(Owned(rows, session.value));
      assert forall n :: n in listed <==> n in multiset(listed);
      Reply(200, NoteList(listed))
  }

  /** No listing ever shows a row of another user. */
  lemma ListNotesOnlyOwn(rows: seq<NoteRow>, userId: string, n: NoteRow)
    requires userId != ""
    requires n.userId != userId
    ensures n !in ListNotes(rows, Some(userId), false).body.notes
  {
  }

  /** After user `u` adds a row, `u`'s listing shows it, and every other
      user's listing is exactly what it was. */
  lemma ListAfterCreate(rows: seq<NoteRow>, row: NoteRow, u: string, v: string)
    requires u != "" && row.userId == u
    ensures row in ListNotes(rows + [row], Some(u), false).body.notes
    ensures v != u ==> ListNotes(rows + [row], Some(v), false) == ListNotes(rows, Some(v), false)
  {
    if v != u {
      OwnedSnoc(rows, row, v);
    }
    assert row in rows + [row];
  }

  /** The note table; `Post` is `POST /api/notes`. */
  class NoteTable {
    var rows: seq<NoteRow>

    constructor (initial: seq<NoteRow>)
      ensures rows == initial
    {
      rows := initial;
    }

    /** `POST /api/notes`: `body` is None when the request body is not
        JSON. Neither the schema nor trimming is applied here: any present,
        non-empty title and content are stored exactly as sent, owned by the
        session user whatever the body says. */
    method Post(session: Option<string>, body: Option<Schemas.NoteInput>, newId: string,
                createdAt: int, updatedAt: int, storageFails: bool) returns (reply: Reply)
      modifies this
      ensures !Authenticated(session) ==> reply == Reply(401, ErrorBody(Unauthorized))
      ensures Authenticated(session) && body.None? ==> reply == Reply(500, ErrorBody(SomethingWentWrong))
      ensures Authenticated(session) && body.Some? && !(Present(body.value.title) && Present(body.value.content)) ==>
                reply == Reply(400, ErrorBody(MissingFields))
      ensures (Authenticated(session) && body.Some? && Present(body.value.title) && Present(body.value.content)
               && storageFails) ==>
                reply == Reply(500, ErrorBody(SomethingWentWrong))
      ensures reply.status == 201 <==> Authenticated(session) && body.Some? && Present(body.value.title)
                                       && Present(body.value.content) && !storageFails
      ensures reply.status == 201 ==>
                var row := NoteRow(newId, session.value, body.value.title.value, body.value.content.value,
                                   createdAt, updatedAt);
                reply.body == CreatedNote(row) && rows == old(rows) + [row]
      ensures reply.status != 201 ==> rows == old(rows)
    {
      if !Authenticated(session) {
        return Reply(401, ErrorBody(Unauthorized));
      }
      if body.None? {
        return Reply(500, ErrorBody(SomethingWentWrong));
      }
      var title, content := body.value.title, body.value.content;
      if !Present(title) || !Present(content) {
        return Reply(400, ErrorBody(MissingFields));
      }
      if storageFails {
        return Reply(500, ErrorBody(SomethingWentWrong));
      }
      var note := NoteRow(newId, session.value, title.value, content.value, createdAt, updatedAt);
      rows := rows + [note];
      reply := Reply(201, CreatedNote(note));
    }
  }

  /** A client of the handlers: user `u` creates a note and then lists. */
  method CreateThenList(table: NoteTable, u: string, v: string, title: string, content: string,
                        newId: string, now: int) returns (created: Reply, mine: Reply, theirs: Reply)
    requires u != "" && v != "" && u != v && title != "" && content != ""
    modifies table
    ensures created.status == 201 && created.body.CreatedNote? && created.body.note.userId == u
    ensures mine.body.NoteList? && created.body.note in mine.body.notes
    ensures theirs.body.NoteList? && created.body.note !in theirs.body.notes
    ensures theirs == ListNotes(old(table.rows), Some(v), false)
  {
    created := table.Post(Some(u), Some(Schemas.NoteInput(Some(title), Some(content))), newId, now, now, false);
    ListAfterCreate(old(table.rows), created.body.note, u, v);
    mine := ListNotes(table.rows, Some(u), false);
    theirs := ListNotes(table.rows, Some(v), false);
  }
}
