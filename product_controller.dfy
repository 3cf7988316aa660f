/** The product endpoints. Each handler is a chain of checks that either
    answers with an error status and leaves the table as it was, or makes
    one change to the product table and answers with the affected row. */
module ProductController {
  import opened Common
  import Products
  import Categories
  import Text

  datatype ProductError =
    | CategoryNotFound
    | ProductNotFound
    | QueryRequired
    | FieldsRequired
    | PriceNotPositive

  function Code(e: ProductError): int
  {
    match e
    case CategoryNotFound | ProductNotFound => 404
    case QueryRequired | FieldsRequired | PriceNotPositive => 400
  }

  /** The fields of a create or update request sent as JSON, so that
      numbers arrive as numbers (the admin page's FormData sends strings,
      which are not modelled). A missing text field
      is the empty string; a missing number is None, so that `!price` and
      `!categoryId` are `!Truthy(..)` and `stockQuantity === undefined` is
      `stockQuantity.None?`. Prices are in cents. */
  datatype ProductBody = ProductBody(
    name: string,
    description: string,
    price: Option<int>,
    stockQuantity: Option<int>,
    categoryId: Option<int>)

  /** An uploaded image file: its MIME type and its contents, already in
      base64. */
  datatype Upload = Upload(mimetype: string, base64: string)

  /** The data URL stored as the image path of an upload. */
  function DataUrl(u: Upload): (r: string)
    ensures |r| >= 5 && r[..5] == "data:"
  {
    "data:" + u.mimetype + ";base64," + u.base64
  }

  /** `getAll`: with a category name, that category's products (404 when
      no category has that name); without one, all products; newest first. */
  function GetAll(rows: seq<Products.Product>, cats: seq<Categories.Category>, category: string)
    : (r: Response<seq<Products.Product>, ProductError>)
    requires AscendingBy(rows, Products.IdOf)
    requires forall c :: c in cats ==> 0 < c.id
    ensures r.Failure? <==> category != "" && Categories.FindByName(cats, category).None?
    ensures r.Failure? ==> r.error == CategoryNotFound
    ensures r.Success? ==> r.code == 200 && DescendingBy(r.body, Products.IdOf)
    ensures r.Success? && category == "" ==> forall p :: p in r.body <==> p in rows
    ensures r.Success? && category != "" ==>
      forall p :: p in r.body <==> p in rows && p.categoryId == Some(Categories.FindByName(cats, category).value.id)
  {
    if category != "" then
      match Categories.FindByName(cats, category)
      case None => Failure(CategoryNotFound)
      case Some(c) => Success(200, Products.GetAll(rows, Some(c.id)))
    else Success(200, Products.GetAll(rows, None))
  }

  /** `getById`. */
  function GetById(rows: seq<Products.Product>, id: int): (r: Response<Products.Product, ProductError>)
    ensures r.Failure? <==> forall p :: p in rows ==> p.id != id
    ensures r.Failure? ==> r.error == ProductNotFound
    ensures r.Success? ==> r.code == 200 && r.body in rows && r.body.id == id
  {
    match Products.FindById(rows, id)
    case None => Failure(ProductNotFound)
    case Some(p) => Success(200, p)
  }

  /** `getFeatured`: the six newest products. */
  function GetFeatured(rows: seq<Products.Product>): (r: seq<Products.Product>)
    requires AscendingBy(rows, Products.IdOf)
    ensures |r| == if |rows| < 6 then |rows| else 6
    ensures forall i :: 0 <= i < |r| ==> r[i] == rows[|rows| - 1 - i]
  {
    Products.GetFeatured(rows, 6)
  }

  /** `search`: 400 for an empty query, otherwise each product whose name
      or description is LIKE `%q%` once, by name. */
  function Search(rows: seq<Products.Product>, q: string): (r: Response<seq<Products.Product>, ProductError>)
    ensures r.Failure? <==> q == ""
    ensures r.Failure? ==> r.error == QueryRequired
    ensures r.Success? ==> r.code == 200
    ensures r.Success? ==> forall p :: p in r.body <==> p in rows && Products.KeywordHit(p, q)
    ensures r.Success? ==> multiset(r.body) == multiset(Filter(rows, (p: Products.Product) => Products.KeywordHit(p, q)))
    ensures r.Success? ==> Text.SortedBy(r.body, (p: Products.Product) => p.name)
  {
    if q == "" then Failure(QueryRequired) else Success(200, Products.Search(rows, q))
  }

  /** The checks of `create`, in their order: the five fields, a positive
      price, an existing category. */
  function CreateCheck(cats: seq<Categories.Category>, body: ProductBody): (r: Option<ProductError>)
    ensures r == Some(FieldsRequired) <==>
      body.name == "" || body.description == "" || !Truthy(body.price) || body.stockQuantity.None? || !Truthy(body.categoryId)
    ensures r == Some(PriceNotPositive) <==>
      body.name != "" && body.description != "" && Truthy(body.price) && body.stockQuantity.Some? && Truthy(body.categoryId)
      && body.price.value <= 0
    ensures r == Some(CategoryNotFound) ==> Categories.FindById(cats, body.categoryId.value).None?
    ensures r.None? <==>
      body.name != "" && body.description != "" && Truthy(body.price) && body.stockQuantity.Some? && Truthy(body.categoryId)
      && body.price.value > 0 && Categories.FindById(cats, body.categoryId.value).Some?
  {
    if body.name == "" || body.description == "" || !Truthy(body.price) || body.stockQuantity.None? || !Truthy(body.categoryId) then
      Some(FieldsRequired)
    else if body.price.value <= 0 then Some(PriceNotPositive)
    else if Categories.FindById(cats, body.categoryId.value).None? then Some(CategoryNotFound)
    else None
  }

  /** The image a new product starts with: the uploaded one, or none. */
  function NewImage(upload: Option<Upload>): (r: Option<string>)
    ensures r.Some? <==> upload.Some?
    ensures r.Some? ==> r.value == DataUrl(upload.value)
  {
    if upload.Some? then Some(DataUrl(upload.value)) else None
  }

  /** `create`: on a failed check nothing is inserted; otherwise one row
      with the submitted fields, and the response 201 with that row. */
  method Create(body: ProductBody, upload: Option<Upload>, products: Products.ProductTable, cats: seq<Categories.Category>)
    returns (r: Response<Products.Product, ProductError>)
    requires products.Valid()
    modifies products
    ensures products.Valid()
    ensures CreateCheck(cats, body).Some? ==> r == Failure(CreateCheck(cats, body).value) && unchanged(products)
    ensures CreateCheck(cats, body).None? ==>
      var row := Products.Product(old(products.nextId), body.name, body.description, body.price.value,
                                  body.stockQuantity.value, body.categoryId, NewImage(upload));
      && products.rows == old(products.rows) + [row]
      && products.nextId == old(products.nextId) + 1
      && Products.FindById(products.rows, row.id) == Some(row)
      && r == Success(201, row)
  {
    var failed := CreateCheck(cats, body);
    if failed.Some? {
      return Failure(failed.value);
    }
    var imagePath := NewImage(upload);
    var id := products.Create(body.name, body.description, body.price.value, body.stockQuantity.value, body.categoryId, imagePath);
    var product := Products.FindById(products.rows, id);
    r := Success(201, product.value);
  }

  /** The checks of `update`, in their order: the product exists, then the
      four fields, then a positive price. The category is not checked. */
  function UpdateCheck(rows: seq<Products.Product>, id: int, body: ProductBody): (r: Option<ProductError>)
    ensures r == Some(ProductNotFound) <==> Products.FindById(rows, id).None?
    ensures r == Some(FieldsRequired) <==>
      (Products.FindById(rows, id).Some?
       && (body.name == "" || body.description == "" || !Truthy(body.price) || body.stockQuantity.None?))
    ensures r == Some(PriceNotPositive) <==>
      (Products.FindById(rows, id).Some?
       && body.name != "" && body.description != "" && Truthy(body.price) && body.stockQuantity.Some?
       && body.price.value <= 0)
    ensures r.None? <==>
      (Products.FindById(rows, id).Some?
       && body.name != "" && body.description != "" && Truthy(body.price) && body.stockQuantity.Some?
       && body.price.value > 0)
  {
    if Products.FindById(rows, id).None? then Some(ProductNotFound)
    else if body.name == "" || body.description == "" || !Truthy(body.price) || body.stockQuantity.None? then
      Some(FieldsRequired)
    else if body.price.value <= 0 then Some(PriceNotPositive)
    else None
  }

  /** The image an updated product ends with: a new upload replaces it,
      otherwise the stored one is kept (including none). */
  function UpdatedImage(stored: Option<string>, upload: Option<Upload>): (r: Option<string>)
    ensures upload.None? ==> r == stored
    ensures upload.Some? ==> r == Some(DataUrl(upload.value))
  {
    if upload.Some? then Some(DataUrl(upload.value)) else stored
  }

  /** `update`: on a failed check nothing changes; otherwise the row with
      that id gets the submitted fields (the category as sent, possibly
      none), keeps its image unless a file was uploaded, and is returned. */
  method Update(id: int, body: ProductBody, upload: Option<Upload>, products: Products.ProductTable)
    returns (r: Response<Products.Product, ProductError>)
    requires products.Valid()
    modifies products
    ensures products.Valid() && products.nextId == old(products.nextId)
    ensures UpdateCheck(old(products.rows), id, body).Some? ==>
      r == Failure(UpdateCheck(old(products.rows), id, body).value) && unchanged(products)
    ensures UpdateCheck(old(products.rows), id, body).None? ==>
      var before := Products.FindById(old(products.rows), id).value;
      var after := Products.Product(id, body.name, body.description, body.price.value, body.stockQuantity.value,
                                    body.categoryId, UpdatedImage(before.imagePath, upload));
      && r == Success(200, after)
      && Products.FindById(products.rows, id) == Some(after)
      && (forall x :: x != id ==> Products.FindById(products.rows, x) == Products.FindById(old(products.rows), x))
      && |products.rows| == |old(products.rows)|
  {
    var failed := UpdateCheck(products.rows, id, body);
    if failed.Some? {
      return Failure(failed.value);
    }
    var product := Products.FindById(products.rows, id).value;
    var imagePath := product.imagePath;
    if upload.Some? {
      imagePath := Some(DataUrl(upload.value));
    }
    ghost var after := Products.Product(id, body.name, body.description, body.price.value, body.stockQuantity.value,
                                        body.categoryId, UpdatedImage(product.imagePath, upload));
    assert Products.Updated(product, body.name, body.description, body.price.value, body.stockQuantity.value,
                            body.categoryId, imagePath) == after;
    products.Update(id, body.name, body.description, body.price.value, body.stockQuantity.value, body.categoryId, imagePath);
    assert Products.FindById(products.rows, id) == Some(after);
    var updated := Products.FindById(products.rows, id);
    r := Success(200, updated.value);
  }

  /** `delete`: 404 and no change for an unknown id; otherwise exactly the
      rows with that id are removed. */
  method Delete(id: int, products: Products.ProductTable) returns (r: Response<(), ProductError>)
    requires products.Valid()
    modifies products
    ensures products.Valid() && products.nextId == old(products.nextId)
    ensures r.Failure? <==> Products.FindById(old(products.rows), id).None?
    ensures r.Failure? ==> r.error == ProductNotFound && unchanged(products)
    ensures r.Success? ==> r.code == 200 && products.rows == Products.Without(old(products.rows), id)
  {
    if Products.FindById(products.rows, id).None? {
      return Failure(ProductNotFound);
    }
    products.Delete(id);
    r := Success(200, ());
  }
}
