/** The document registry `indexed_documents.csv`: one row per indexed
    document, `doc_name,doc_id`. Saving appends a row unless some row
    already carries the same `doc_id`; loading maps every name to its id,
    a later row overriding an earlier one with the same name.

    The file is modelled by its parsed rows, or `None` when it does not
    exist; reading and writing CSV text is not modelled. */
module Registry {
  import opened Basics

  datatype Row = Row(docName: string, docId: string)

  /** The registry file: absent, or present with its data rows. */
  type RegistryFile = Option<seq<Row>>

  /** The rows read from the file, none when it does not exist. */
  function Rows(file: RegistryFile): seq<Row> {
    if file.Some? then file.value else []
  }

  /** `any(r["doc_id"] == doc_id for r in rows)`. */
  predicate HasId(rows: seq<Row>, id: string) {
    exists i :: 0 <= i < |rows| && rows[i].docId == id
  }

  /** No two rows share a `doc_id`. */
  predicate UniqueIds(rows: seq<Row>) {
    forall i, j :: 0 <= i < j < |rows| ==> rows[i].docId != rows[j].docId
  }

  /** `save_documents(doc_name, doc_id)`: the file after the call. An id
      already present leaves the file untouched (whatever the name);
      otherwise the new row is appended and the file written back. */
  function Save(file: RegistryFile, name: string, id: string): (r: RegistryFile)
    ensures r.Some?
    ensures HasId(r.value, id)
    ensures r == file <==> HasId(Rows(file), id)
    ensures |Rows(file)| <= |r.value| <= |Rows(file)| + 1
    ensures r.value[..|Rows(file)|] == Rows(file)
    ensures !HasId(Rows(file), id) ==> r.value[|Rows(file)|] == Row(name, id)
    ensures UniqueIds(Rows(file)) ==> UniqueIds(r.value)
  {
    var rows := Rows(file);
    if file.Some? && HasId(rows, id) then file
    else
      var r := rows + [Row(name, id)];
      assert r[|rows|].docId == id;
      assert r[..|rows|] == rows;
      Some(r)
  }

  /** Saving the same document twice changes nothing the second time. */
  lemma SaveIdempotent(file: RegistryFile, name: string, id: string)
    ensures Save(Save(file, name, id), name, id) == Save(file, name, id)
  {
  }

  /** A second name for an id that is already registered is not recorded:
      saving under `other` after `name` leaves the file as `name` left it. */
  lemma SecondNameIgnored(file: RegistryFile, name: string, other: string, id: string)
    ensures Save(Save(file, name, id), other, id) == Save(file, name, id)
  {
  }

  /** `{row["doc_name"]: row["doc_id"] for row in rows}`: later rows win. */
  function LoadRows(rows: seq<Row>): (m: map<string, string>)
    ensures forall k :: k in m <==> exists i :: 0 <= i < |rows| && rows[i].docName == k
    decreases |rows|
  {
    if rows == [] then map[]
    else
      var init := rows[..|rows| - 1];
      var last := rows[|rows| - 1];
      var m := LoadRows(init);
      assert forall i :: 0 <= i < |init| ==> init[i] == rows[i];
      m[last.docName := last.docId]
  }

  /** `load_documents()`: the mapping, or `{}` when there is no file. */
  function Load(file: RegistryFile): (m: map<string, string>)
    ensures forall k :: k in m <==> exists i :: 0 <= i < |Rows(file)| && Rows(file)[i].docName == k
  {
    if file.None? then map[]
    else
      assert Rows(file) == file.value;
      LoadRows(file.value)
  }

  /** The id a name maps to comes from the last row with that name. */
  lemma {:induction false} LoadRowsLastWins(rows: seq<Row>, i: nat)
    requires i < |rows|
    requires forall j :: i < j < |rows| ==> rows[j].docName != rows[i].docName
    ensures rows[i].docName in LoadRows(rows)
    ensures LoadRows(rows)[rows[i].docName] == rows[i].docId
    decreases |rows|
  {
    if i < |rows| - 1 {
      var init := rows[..|rows| - 1];
      assert init[i] == rows[i];
      LoadRowsLastWins(init, i);
    }
  }

  /** Loading after saving a new id maps the name to that id and leaves
      every other name as it was. */
  lemma SaveThenLoad(file: RegistryFile, name: string, id: string)
    requires !HasId(Rows(file), id)
    ensures Load(Save(file, name, id)) == Load(file)[name := id]
  {
    var rows := Rows(file) + [Row(name, id)];
    assert Save(file, name, id) == Some(rows);
    assert rows[..|rows| - 1] == Rows(file);
    assert LoadRows(rows) == LoadRows(Rows(file))[name := id];
    assert Load(file) == LoadRows(Rows(file));
  }
}
