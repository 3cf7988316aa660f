/** The `categories` table and the queries of the Category model. The
    table declares `name TEXT UNIQUE`, so an insert or update that would
    duplicate a name is rejected by the database. */
module Categories {
  import opened Common
  import Text

  datatype Category = Category(id: int, name: string, description: string)

  function IdOf(c: Category): int { c.id }

  function NameOf(c: Category): string { c.name }

  ghost predicate NamesUnique(rows: seq<Category>)
  {
    forall i, j :: 0 <= i < |rows| && 0 <= j < |rows| && rows[i].name == rows[j].name ==> i == j
  }

  /** Ids as handed out by AUTOINCREMENT, and the UNIQUE constraint on names. */
  ghost predicate WellFormed(rows: seq<Category>, nextId: int)
  {
    0 < nextId && AscendingBy(rows, IdOf) && (forall c :: c in rows ==> 0 < c.id < nextId) && NamesUnique(rows)
  }

  /** `findById`. */
  function FindById(rows: seq<Category>, id: int): (r: Option<Category>)
    ensures r.Some? ==> r.value in rows && r.value.id == id
    ensures r.None? <==> forall c :: c in rows ==> c.id != id
  {
    if rows == [] then None
    else if rows[0].id == id then Some(rows[0])
    else FindById(rows[1..], id)
  }

  /** `findByName`: a row only on exact (case-sensitive) equality of names. */
  function FindByName(rows: seq<Category>, name: string): (r: Option<Category>)
    ensures r.Some? ==> r.value in rows && r.value.name == name
    ensures r.None? <==> forall c :: c in rows ==> c.name != name
  {
    if rows == [] then None
    else if rows[0].name == name then Some(rows[0])
    else FindByName(rows[1..], name)
  }

  /** `getAll`: every category, ordered by name. */
  function GetAll(rows: seq<Category>): (r: seq<Category>)
    ensures Text.SortedBy(r, NameOf)
    ensures multiset(r) == multiset(rows)
  {
    Text.SortBy(rows, NameOf)
  }

  /** `UPDATE categories SET name = ?, description = ? WHERE id = ?`. */
  function Overwritten(rows: seq<Category>, id: int, name: string, description: string): (r: seq<Category>)
    ensures |r| == |rows|
    ensures forall i :: 0 <= i < |rows| ==> r[i] == if rows[i].id == id then Category(id, name, description) else rows[i]
  {
    if rows == [] then []
    else [if rows[0].id == id then Category(id, name, description) else rows[0]]
         + Overwritten(rows[1..], id, name, description)
  }

  /** The update the database refuses: the row exists and another row
      already carries the new name. */
  predicate UpdateConflicts(rows: seq<Category>, id: int, name: string)
  {
    FindById(rows, id).Some? && exists c :: c in rows && c.id != id && c.name == name
  }

  /** When the database accepts an update, names stay unique. */
  lemma OverwriteKeepsWellFormed(rows: seq<Category>, nextId: int, id: int, name: string, description: string)
    requires WellFormed(rows, nextId)
    requires !UpdateConflicts(rows, id, name)
    ensures WellFormed(Overwritten(rows, id, name, description), nextId)
  {
    var r := Overwritten(rows, id, name, description);
    assert forall i :: 0 <= i < |r| ==> r[i].id == rows[i].id;
    forall c | c in r ensures 0 < c.id < nextId {
      var i :| 0 <= i < |r| && r[i] == c;
      assert rows[i] in rows;
    }
    OverwriteKeepsNamesUnique(rows, id, name, description);
  }

  lemma OverwriteKeepsNamesUnique(rows: seq<Category>, id: int, name: string, description: string)
    requires NamesUnique(rows) && AscendingBy(rows, IdOf)
    requires !UpdateConflicts(rows, id, name)
    ensures NamesUnique(Overwritten(rows, id, name, description))
  {
    var r := Overwritten(rows, id, name, description);
    forall k | 0 <= k < |rows| && rows[k].id == id ensures FindById(rows, id).Some? {
      assert rows[k] in rows;
    }
    forall k | 0 <= k < |rows| && rows[k].id != id && FindById(rows, id).Some? ensures rows[k].name != name {
      assert rows[k] in rows;
    }
    forall i, j | 0 <= i < |r| && 0 <= j < |r| && r[i].name == r[j].name ensures i == j {
      if rows[i].id == id && rows[j].id == id {
        assert IdOf(rows[i]) == IdOf(rows[j]);
      }
    }
  }

  /** `DELETE FROM categories WHERE id = ?`. */
  function Without(rows: seq<Category>, id: int): (r: seq<Category>)
    ensures forall c :: c in r <==> c in rows && c.id != id
    ensures IsSubsequence(r, rows)
  {
    Filter(rows, (c: Category) => c.id != id)
  }

  lemma {:induction false} WithoutKeepsUnique(rows: seq<Category>, id: int)
    requires NamesUnique(rows)
    ensures NamesUnique(Without(rows, id))
  {
    if rows != [] {
      var keep := (c: Category) => c.id != id;
      assert NamesUnique(rows[1..]);
      WithoutKeepsUnique(rows[1..], id);
      var rest := Without(rows[1..], id);
      if keep(rows[0]) {
        forall k | 0 <= k < |rest| ensures rest[k].name != rows[0].name {
          assert rest[k] in rows[1..];
          var m :| 0 <= m < |rows[1..]| && rows[1..][m] == rest[k];
          assert rows[m + 1] == rest[k];
        }
      }
    }
  }

  class CategoryTable {
    var rows: seq<Category>
    var nextId: int

    ghost predicate Valid()
      reads this
    {
      WellFormed(rows, nextId)
    }

    constructor ()
      ensures Valid() && rows == []
    {
      rows := [];
      nextId := 1;
    }

    /** `Category.create`: the new row gets a fresh id and exactly the given
        name and description; a duplicate name makes the insert fail and
        changes nothing. */
    method Create(name: string, description: string) returns (id: Option<int>)
      requires Valid()
      modifies this
      ensures Valid()
      ensures id.None? <==> FindByName(old(rows), name).Some?
      ensures id.None? ==> rows == old(rows) && nextId == old(nextId)
      ensures id.Some? ==> (id.value == old(nextId) && nextId == old(nextId) + 1
        && rows == old(rows) + [Category(id.value, name, description)]
        && FindById(rows, id.value) == Some(Category(id.value, name, description)))
    {
      if FindByName(rows, name).Some? {
        return None;
      }
      var row := Category(nextId, name, description);
      FindAfterAppend(rows, row);
      AppendKeepsWellFormed(rows, nextId, row);
      rows := rows + [row];
      id := Some(nextId);
      nextId := nextId + 1;
    }

    /** `Category.update`: name and description of the targeted row only;
        a name taken by another row makes the statement fail. */
    method Update(id: int, name: string, description: string) returns (ok: bool)
      requires Valid()
      modifies this
      ensures Valid() && nextId == old(nextId)
      ensures ok <==> !UpdateConflicts(old(rows), id, name)
      ensures rows == if ok then Overwritten(old(rows), id, name, description) else old(rows)
    {
      ok := !UpdateConflicts(rows, id, name);
      if ok {
        OverwriteKeepsWellFormed(rows, nextId, id, name, description);
        rows := Overwritten(rows, id, name, description);
      }
    }

    /** `Category.delete`: only the targeted row goes. Products that refer
        to it keep their `category_id`, since SQLite does not enforce the
        foreign key unless asked to. */
    method Delete(id: int)
      requires Valid()
      modifies this
      ensures Valid() && nextId == old(nextId)
      ensures rows == Without(old(rows), id)
    {
      FilterKeepsAscending(rows, (c: Category) => c.id != id, IdOf);
      WithoutKeepsUnique(rows, id);
      rows := Without(rows, id);
    }
  }

  /** A row with the next id and a new name keeps the table well formed. */
  lemma AppendKeepsWellFormed(rows: seq<Category>, nextId: int, row: Category)
    requires WellFormed(rows, nextId)
    requires row.id == nextId && forall c :: c in rows ==> c.name != row.name
    ensures WellFormed(rows + [row], nextId + 1)
  {
    var r := rows + [row];
    assert forall k :: 0 <= k < |rows| ==> r[k] == rows[k] && rows[k] in rows;
    AppendKeepsAscending(rows, row, IdOf);
  }

  lemma {:induction false} FindAfterAppend(rows: seq<Category>, row: Category)
    requires forall c :: c in rows ==> c.id != row.id
    ensures FindById(rows + [row], row.id) == Some(row)
    ensures forall x :: x != row.id ==> FindById(rows + [row], x) == FindById(rows, x)
  {
    if rows != [] {
      assert (rows + [row])[1..] == rows[1..] + [row];
      FindAfterAppend(rows[1..], row);
    }
  }

  /** After an update, the lookup by the updated id sees the new name and
      description, and every other lookup by id is as before. */
  lemma {:induction false} FindByIdAfterOverwrite(rows: seq<Category>, id: int, name: string, description: string, x: int)
    ensures FindById(Overwritten(rows, id, name, description), x)
         == if x == id && FindById(rows, id).Some? then Some(Category(id, name, description)) else FindById(rows, x)
  {
    if rows != [] {
      var r := Overwritten(rows, id, name, description);
      assert r[1..] == Overwritten(rows[1..], id, name, description);
      FindByIdAfterOverwrite(rows[1..], id, name, description, x);
    }
  }

  /** A lookup by name after an update finds the renamed row under its new
      name. */
  lemma {:induction false} FindByNameAfterOverwrite(rows: seq<Category>, id: int, name: string, description: string)
    requires FindById(rows, id).Some?
    ensures FindByName(Overwritten(rows, id, name, description), name).Some?
  {
    if rows[0].id != id {
      var r := Overwritten(rows, id, name, description);
      assert r[1..] == Overwritten(rows[1..], id, name, description);
      FindByNameAfterOverwrite(rows[1..], id, name, description);
    }
  }
}
