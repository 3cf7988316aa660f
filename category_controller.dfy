/** The category endpoints: a name check, and for `create` a duplicate
    check, before one change to the category table. */
module CategoryController {
  import opened Common
  import Categories

  datatype CategoryError =
    | NameRequired
    | AlreadyExists
    | CategoryNotFound
    | UpdateFailed

  /** An update that the UNIQUE constraint on names refuses throws inside
      the model and reaches the handler's catch block, hence 500. */
  function Code(e: CategoryError): int
  {
    match e
    case NameRequired | AlreadyExists => 400
    case CategoryNotFound => 404
    case UpdateFailed => 500
  }

  /** The request body; a missing field is the empty string, which is also
      what `description || ''` stores for a missing description. */
  datatype CategoryBody = CategoryBody(name: string, description: string)

  /** `getById`. */
  function GetById(rows: seq<Categories.Category>, id: int): (r: Response<Categories.Category, CategoryError>)
    ensures r.Failure? <==> forall c :: c in rows ==> c.id != id
    ensures r.Failure? ==> r.error == CategoryNotFound
    ensures r.Success? ==> r.code == 200 && r.body in rows && r.body.id == id
  {
    match Categories.FindById(rows, id)
    case None => Failure(CategoryNotFound)
    case Some(c) => Success(200, c)
  }

  /** The checks of `create`, in their order: a name, then no category of
      that name. */
  function CreateCheck(rows: seq<Categories.Category>, body: CategoryBody): (r: Option<CategoryError>)
    ensures r == Some(NameRequired) <==> body.name == ""
    ensures r == Some(AlreadyExists) <==> body.name != "" && exists c :: c in rows && c.name == body.name
    ensures r.None? <==> body.name != "" && forall c :: c in rows ==> c.name != body.name
  {
    if body.name == "" then Some(NameRequired)
    else if Categories.FindByName(rows, body.name).Some? then Some(AlreadyExists)
    else None
  }

  /** `create`: on a failed check the table is unchanged; otherwise one new
      category with the given name and description, answered with 201. */
  method Create(body: CategoryBody, table: Categories.CategoryTable) returns (r: Response<Categories.Category, CategoryError>)
    requires table.Valid()
    modifies table
    ensures table.Valid()
    ensures CreateCheck(old(table.rows), body).Some? ==>
      r == Failure(CreateCheck(old(table.rows), body).value) && unchanged(table)
    ensures CreateCheck(old(table.rows), body).None? ==>
      var row := Categories.Category(old(table.nextId), body.name, body.description);
      && table.rows == old(table.rows) + [row]
      && Categories.FindById(table.rows, row.id) == Some(row)
      && r == Success(201, row)
  {
    var failed := CreateCheck(table.rows, body);
    if failed.Some? {
      return Failure(failed.value);
    }
    var id := table.Create(body.name, body.description);
    var category := Categories.FindById(table.rows, id.value);
    r := Success(201, category.value);
  }

  /** The checks of `update`, in their order: the category exists, then a
      name. Duplicate names are left to the database. */
  function UpdateCheck(rows: seq<Categories.Category>, id: int, body: CategoryBody): (r: Option<CategoryError>)
    ensures r == Some(CategoryNotFound) <==> Categories.FindById(rows, id).None?
    ensures r == Some(NameRequired) <==> Categories.FindById(rows, id).Some? && body.name == ""
    ensures r.None? <==> Categories.FindById(rows, id).Some? && body.name != ""
  {
    if Categories.FindById(rows, id).None? then Some(CategoryNotFound)
    else if body.name == "" then Some(NameRequired)
    else None
  }

  /** `update`: on a failed check, or when another category already has the
      new name, nothing changes; otherwise only the targeted row gets the new
      name and description, and is returned. */
  method Update(id: int, body: CategoryBody, table: Categories.CategoryTable) returns (r: Response<Categories.Category, CategoryError>)
    requires table.Valid()
    modifies table
    ensures table.Valid()
    ensures UpdateCheck(old(table.rows), id, body).Some? ==>
      r == Failure(UpdateCheck(old(table.rows), id, body).value) && unchanged(table)
    ensures UpdateCheck(old(table.rows), id, body).None? && Categories.UpdateConflicts(old(table.rows), id, body.name) ==>
      r == Failure(UpdateFailed) && table.rows == old(table.rows)
    ensures UpdateCheck(old(table.rows), id, body).None? && !Categories.UpdateConflicts(old(table.rows), id, body.name) ==>
      && r == Success(200, Categories.Category(id, body.name, body.description))
      && table.rows == Categories.Overwritten(old(table.rows), id, body.name, body.description)
      && Categories.FindById(table.rows, id) == Some(r.body)
  {
    var failed := UpdateCheck(table.rows, id, body);
    if failed.Some? {
      return Failure(failed.value);
    }
    ghost var before := table.rows;
    var ok := table.Update(id, body.name, body.description);
    if !ok {
      return Failure(UpdateFailed);
    }
    Categories.FindByIdAfterOverwrite(before, id, body.name, body.description, id);
    var category := Categories.FindById(table.rows, id);
    r := Success(200, category.value);
  }

  /** `delete`: 404 and no change for an unknown id; otherwise the row with
      that id is removed. */
  method Delete(id: int, table: Categories.CategoryTable) returns (r: Response<(), CategoryError>)
    requires table.Valid()
    modifies table
    ensures table.Valid()
    ensures r.Failure? <==> Categories.FindById(old(table.rows), id).None?
    ensures r.Failure? ==> r.error == CategoryNotFound && unchanged(table)
    ensures r.Success? ==> r.code == 200 && table.rows == Categories.Without(old(table.rows), id)
  {
    if Categories.FindById(table.rows, id).None? {
      return Failure(CategoryNotFound);
    }
    table.Delete(id);
    r := Success(200, ());
  }

  /** An update that passes the handler's checks and keeps the name of the
      targeted category always succeeds: a row never conflicts with itself. */
  lemma RenameToSameNameSucceeds(rows: seq<Categories.Category>, nextId: int, id: int, body: CategoryBody)
    requires Categories.WellFormed(rows, nextId)
    requires UpdateCheck(rows, id, body).None?
    requires body.name == Categories.FindById(rows, id).value.name
    ensures !Categories.UpdateConflicts(rows, id, body.name)
  {
    var c := Categories.FindById(rows, id).value;
    forall d | d in rows && d.id != id ensures d.name != body.name {
      var i :| 0 <= i < |rows| && rows[i] == d;
      var j :| 0 <= j < |rows| && rows[j] == c;
    }
  }
}
