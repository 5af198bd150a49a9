/** The product table and the product endpoints: the `Product` record
    (apps/products/models/product.py), `ProductSerializer`
    (apps/products/serializers/product_serializer.py) and the actions of
    `ProductViewSet` (apps/products/views/product_view.py), each written as
    a function from the table and the request to the answer and the new
    table. */
module Products {
  import opened Common

  type ProductId = nat

  const NameMax: nat := 255

  /** `price` has at most 10 digits, 2 of them after the point, so at most
      8 before it: stored in cents, its magnitude stays below 10^10. */
  const PriceBound: int := 10_000_000_000

  /** A stored product; `price` is in cents, `stock` has no lower bound of
      its own. */
  datatype Product = Product(
    owner: UserId,
    name: string,
    description: string,
    price: int,
    stock: int,
    image: Option<string>,
    isActive: bool)

  type Table = map<ProductId, Product>

  /** The field limits of the model. */
  predicate WellFormed(p: Product) {
    && p.name != [] && |p.name| <= NameMax
    && p.description != []
    && -PriceBound < p.price < PriceBound
  }

  /** What the database guarantees of the table: rows within their field
      limits and ids below the auto-increment counter. */
  predicate TableOk(t: Table, next: ProductId) {
    forall id :: id in t ==> id < next && WellFormed(t[id])
  }

  /** What `ProductSerializer` renders: exactly id, user, name, description,
      price, stock and image, where `user` is the owner's id. */
  datatype Representation = Representation(
    id: ProductId,
    user: UserId,
    name: string,
    description: string,
    price: int,
    stock: int,
    image: Option<string>)

  function Represent(id: ProductId, p: Product): Representation {
    Representation(id, p.owner, p.name, p.description, p.price, p.stock, p.image)
  }

  // ---------------------------------------------------------------------
  // Permissions

  datatype Permission = AllowAny | IsAuthenticated

  /** The actions `get_permissions` lists as needing a logged-in user. */
  const AuthenticatedActions: set<string> := {"create", "update", "partial_update", "destroy", "buy"}

  /** The actions whose `@action` decorator declares IsAuthenticated. */
  const DecoratedAuthenticated: set<string> := {"create_product", "buy"}

  /** `get_permissions` as written: IsAuthenticated for the five listed
      action names, AllowAny for every other one, including `list`,
      `retrieve` and `create_product`. */
  function PermissionFor(action: string): (p: Permission)
    ensures p == IsAuthenticated <==> action in AuthenticatedActions
    ensures action in {"list", "retrieve", "create_product"} ==> p == AllowAny
    ensures action in {"partial_update", "destroy", "buy"} ==> p == IsAuthenticated
  {
    if action in AuthenticatedActions then IsAuthenticated else AllowAny
  }

  /** The policy with the decorator's IsAuthenticated honoured: it differs
      from `PermissionFor` on `create_product` alone. */
  function CorrectedPermissionFor(action: string): (p: Permission)
    ensures p == IsAuthenticated <==> action in AuthenticatedActions || action in DecoratedAuthenticated
    ensures action in {"list", "retrieve"} ==> p == AllowAny
    ensures action in {"create_product", "partial_update", "destroy", "buy"} ==> p == IsAuthenticated
    ensures action != "create_product" ==> p == PermissionFor(action)
  {
    if action in AuthenticatedActions || action in DecoratedAuthenticated then IsAuthenticated else AllowAny
  }

  /** The permission check run before every handler: an anonymous requester
      is turned away from an IsAuthenticated action, anyone else passes. */
  function Admit(p: Permission, who: Requester): (r: Option<Error>)
    ensures r.Some? <==> p == IsAuthenticated && who.Anonymous?
    ensures r.Some? ==> r.value == NotAuthenticated
  {
    if p == IsAuthenticated && who.Anonymous? then Some(NotAuthenticated) else None
  }

  // ---------------------------------------------------------------------
  // Serializer

  /** The fields `ProductSerializer` declares, in its order. */
  datatype Field = Id | User | Name | Description | Price | Stock | Image

  /** The name of a field in a request body and in the rendered output. */
  function Key(f: Field): string {
    match f
    case Id => "id"
    case User => "user"
    case Name => "name"
    case Description => "description"
    case Price => "price"
    case Stock => "stock"
    case Image => "image"
  }

  /** The writable fields; `id` and `user` are read-only and never read
      from a body. */
  predicate Writable(f: Field) {
    f != Id && f != User
  }

  /** The writable fields a full (non-partial) validation requires: all but
      the optional `image`. */
  predicate Required(f: Field) {
    Writable(f) && f != Image
  }

  /** Validated data, keyed by field. */
  type Data = map<Field, Value>

  /** Cleans one writable field; None when the value breaks its rules. */
  function CleanField(f: Field, v: Value): (r: Option<Value>)
    ensures r.Some? ==> Writable(f)
    ensures r.Some? && (f == Name || f == Description) ==> v.Str? && r.value.Str? && r.value.s == Strip(v.s)
    ensures r.Some? && (f == Price || f == Stock || f == Image) ==> r.value == v
    ensures r.Some? && f == Name ==> r.value.s != [] && |r.value.s| <= NameMax
    ensures r.Some? && f == Description ==> r.value.s != []
    ensures r.Some? && f == Price ==> r.value.Num? && -PriceBound < r.value.n < PriceBound
    ensures r.Some? && f == Stock ==> r.value.Num?
    ensures r.Some? && f == Image ==> r.value.Str? && r.value.s != []
    ensures f == Name ==> (r.Some? <==> CleanText(v, Some(NameMax)).Some?)
    ensures f == Description ==> (r.Some? <==> CleanText(v, None).Some?)
    ensures f == Price ==> (r.Some? <==> v.Num? && -PriceBound < v.n < PriceBound)
    ensures f == Stock ==> (r.Some? <==> v.Num?)
    ensures f == Image ==> (r.Some? <==> v.Str? && v.s != [])
  {
    match f
    case Name =>
      (match CleanText(v, Some(NameMax)) case None => None case Some(text) => Some(Str(text)))
    case Description =>
      (match CleanText(v, None) case None => None case Some(text) => Some(Str(text)))
    case Price => if v.Num? && -PriceBound < v.n < PriceBound then Some(v) else None
    case Stock => if v.Num? then Some(v) else None
    case Image => if v.Str? && v.s != [] then Some(v) else None
    case _ => None
  }

  /** Whether a writable field fails validation: its value is rejected, or
      it is missing from a full validation and required. */
  predicate Fails(f: Field, body: Body, partial: bool) {
    if Key(f) in body then CleanField(f, body[Key(f)]).None? else !partial && Required(f)
  }

  /** The writable fields that fail validation. */
  function BadFields(body: Body, partial: bool): set<Field> {
    set f: Field | Writable(f) && Fails(f, body, partial)
  }

  /** Validated data: writable fields only, text under the text fields and
      numbers under the number fields. */
  predicate WellTyped(data: Data) {
    forall f :: f in data ==>
      && Writable(f)
      && (f == Name || f == Description || f == Image ==> data[f].Str?)
      && (f == Price || f == Stock ==> data[f].Num?)
  }

  /** The cleaned value of every writable field the body supplies and
      that passes. */
  function Cleaned(body: Body): (m: Data)
    ensures WellTyped(m)
    ensures forall f :: f in m <==> Writable(f) && Key(f) in body && CleanField(f, body[Key(f)]).Some?
    ensures forall f :: f in m ==> CleanField(f, body[Key(f)]) == Some(m[f])
  {
    map f | Writable(f) && Key(f) in body && CleanField(f, body[Key(f)]).Some? :: CleanField(f, body[Key(f)]).value
  }

  /** `serializer.is_valid(raise_exception=True)`: the cleaned writable
      fields present in the body, or a ValidationError naming each failing
      field. A `user` or `id` in the body is ignored. */
  function Validate(body: Body, partial: bool): (r: Result<Data>)
    ensures r.Ok? <==> BadFields(body, partial) == {}
    ensures r.Err? ==> r.error == ValidationError(set f | f in BadFields(body, partial) :: Key(f))
    ensures r.Ok? ==> r.value == Cleaned(body)
    ensures r.Ok? ==> forall f :: Writable(f) ==> (f in r.value <==> Key(f) in body)
    ensures r.Ok? && !partial ==> forall f :: Required(f) ==> f in r.value
  {
    var bad := BadFields(body, partial);
    if bad != {} then Err(ValidationError(set f | f in bad :: Key(f)))
    else
      assert forall f :: Writable(f) ==> !Fails(f, body, partial) by {
        forall f | Writable(f) ensures !Fails(f, body, partial) {
          assert f !in bad;
        }
      }
      Ok(Cleaned(body))
  }

  /** `ModelSerializer.update`: sets every attribute named in the data; an
      owner id under `user` would replace the owner. */
  function Apply(p: Product, data: Data): Product {
    p.(
      owner := if User in data && data[User].Num? && data[User].n >= 0 then data[User].n else p.owner,
      name := if Name in data && data[Name].Str? then data[Name].s else p.name,
      description := if Description in data && data[Description].Str? then data[Description].s else p.description,
      price := if Price in data && data[Price].Num? then data[Price].n else p.price,
      stock := if Stock in data && data[Stock].Num? then data[Stock].n else p.stock,
      image := if Image in data && data[Image].Str? then Some(data[Image].s) else p.image)
  }

  /** The fields `update` discards before saving. */
  const Immutable: seq<Field> := [User, Id]

  /** The loop in `ProductSerializer.update`: pops `user` and `id` from the
      validated data, whichever are there, and keeps everything else. */
  method DiscardImmutable(data: Data) returns (d: Data)
    ensures d == data - {User, Id}
  {
    d := data;
    for i := 0 to |Immutable|
      invariant forall f :: f in d <==> f in data && f !in Immutable[..i]
      invariant forall f :: f in d ==> d[f] == data[f]
    {
      assert Immutable[..i + 1] == Immutable[..i] + [Immutable[i]];
      d := d - {Immutable[i]};
    }
    assert Immutable[..|Immutable|] == Immutable;
    assert d == data - {User, Id};
  }

  /** A writable field of a product as a body value (the image as its
      reference, the empty text when there is none). */
  function Get(p: Product, f: Field): Value {
    match f
    case Name => Str(p.name)
    case Description => Str(p.description)
    case Price => Num(p.price)
    case Stock => Num(p.stock)
    case Image => if p.image.Some? then Str(p.image.value) else Str([])
    case User => Num(p.owner)
    case Id => Num(0)
  }

  /** `ProductSerializer.update`: the product with `user` and `id` discarded
      from the data and every other supplied field overwritten; the owner
      never changes, whatever the data holds. */
  function Update(p: Product, data: Data): (r: Product)
    ensures r.owner == p.owner && r.isActive == p.isActive
    ensures WellTyped(data) ==> forall f :: Writable(f) && f !in data ==> Get(r, f) == Get(p, f)
    ensures WellTyped(data) ==> forall f :: f in data ==> Get(r, f) == data[f]
    ensures Image !in data ==> r.image == p.image
  {
    Apply(p, data - {User, Id})
  }

  // ---------------------------------------------------------------------
  // Views

  /** `get_object_or_404`: only active products are found. */
  function Lookup(t: Table, pk: ProductId): (r: Result<Product>)
    ensures r.Ok? <==> pk in t && t[pk].isActive
    ensures r.Ok? ==> r.value == t[pk]
    ensures r.Err? ==> r.error == NotFound("Product not found.")
  {
    if pk in t && t[pk].isActive then Ok(t[pk]) else Err(NotFound("Product not found."))
  }

  /** The framework's `get_object` over the same active-only query set,
      which reports a miss with its own message. */
  const FrameworkNotFound: string := "Not found."

  function GetObject(t: Table, pk: ProductId): (r: Result<Product>)
    ensures r.Ok? <==> pk in t && t[pk].isActive
    ensures r.Ok? ==> r.value == t[pk]
    ensures r.Err? ==> r.error == NotFound(FrameworkNotFound)
  {
    if pk in t && t[pk].isActive then Ok(t[pk]) else Err(NotFound(FrameworkNotFound))
  }

  /** `list`: every active product, rendered, keyed by id; open to anyone. */
  function List(t: Table): (r: map<ProductId, Representation>)
    ensures forall id :: id in r <==> id in t && t[id].isActive
    ensures forall id :: id in r ==> r[id].id == id && r[id].user == t[id].owner
    ensures forall id :: id in r ==> r[id] == Represent(id, t[id])
  {
    map id | id in t && t[id].isActive :: Represent(id, t[id])
  }

  /** `retrieve`: one active product, rendered; open to anyone. */
  function Retrieve(t: Table, pk: ProductId): (r: Outcome<Representation>)
    ensures r.Done? <==> pk in t && t[pk].isActive
    ensures r.Done? ==> r.status == 200 && r.body == Represent(pk, t[pk])
    ensures r.Failed? ==> r.error == NotFound("Product not found.")
  {
    match Lookup(t, pk)
    case Err(e) => Failed(e)
    case Ok(p) => Done(200, Represent(pk, p))
  }

  /** `ProductSerializer.create`: the product built from a body that
      passed full validation, owned by the requester whatever the body
      said, holding the trimmed texts and the supplied numbers; the image
      only when one was supplied. */
  function NewProduct(owner: UserId, body: Body): (p: Product)
    requires Validate(body, false).Ok?
    ensures WellFormed(p) && p.owner == owner && p.isActive
    ensures p.name == Supplied(body, "name") && p.description == Supplied(body, "description")
    ensures p.price == NumberIn(body, "price") && p.stock == NumberIn(body, "stock")
    ensures p.image == (if "image" in body then Some(TextIn(body, "image")) else None)
  {
    var data := Validate(body, false).value;
    assert Required(Name) && Required(Description) && Required(Price) && Required(Stock);
    assert CleanField(Name, body["name"]) == Some(data[Name]);
    assert CleanField(Description, body["description"]) == Some(data[Description]);
    assert CleanField(Price, body["price"]) == Some(data[Price]);
    assert CleanField(Stock, body["stock"]) == Some(data[Stock]);
    assert Key(Image) == "image" && Writable(Image);
    assert "image" in body ==> CleanField(Image, body["image"]) == Some(data[Image]);
    Product(owner, data[Name].s, data[Description].s, data[Price].n, data[Stock].n,
            if Image in data then Some(data[Image].s) else None, true)
  }

  /** Inserting a well-formed product under a fresh id keeps the table's
      guarantees and leaves the other rows alone. */
  lemma InsertKeepsTableOk(t: Table, next: ProductId, p: Product)
    requires TableOk(t, next) && WellFormed(p)
    ensures next !in t
    ensures t[next := p].Keys == t.Keys + {next}
    ensures forall id :: id in t ==> t[next := p][id] == t[id]
    ensures TableOk(t[next := p], next + 1)
  {
  }

  /** `create_product` with the decorator's IsAuthenticated honoured: an
      anonymous requester is turned away, a valid body is stored under a
      fresh id with the requester as owner and answered with 201. */
  function Create(t: Table, next: ProductId, who: Requester, body: Body): (r: (Outcome<Representation>, Table))
    requires TableOk(t, next)
    ensures r.0.Failed? ==> r.1 == t && (r.0.error == NotAuthenticated || r.0.error.ValidationError?)
    ensures who.Anonymous? ==> r.0 == Failed(NotAuthenticated)
    ensures r.0.Done? <==> who.Authenticated? && Validate(body, false).Ok?
    ensures who.Authenticated? && Validate(body, false).Err? ==> r.0 == Failed(Validate(body, false).error)
    ensures r.0.Done? ==>
      && r.0.status == 201
      && r.1.Keys == t.Keys + {next}
      && (forall id :: id in t ==> r.1[id] == t[id])
      && r.1[next] == NewProduct(who.uid, body)
      && r.1[next].owner == who.uid
      && r.0.body == Represent(next, r.1[next])
    ensures TableOk(r.1, if r.0.Done? then next + 1 else next)
  {
    if Admit(CorrectedPermissionFor("create_product"), who).Some? then (Failed(NotAuthenticated), t)
    else
      var v := Validate(body, false);
      if v.Err? then (Failed(v.error), t)
      else
        var p := NewProduct(who.uid, body);
        InsertKeepsTableOk(t, next, p);
        (Done(201, Represent(next, p)), t[next := p])
  }

  /** `create_product` as written: `get_permissions` lets an anonymous
      requester through, a valid body then reaches
      `ProductSerializer.create`, and assigning the anonymous user as owner
      fails with a server error. */
  function CreateAsWritten(t: Table, next: ProductId, who: Requester, body: Body): (r: (Outcome<Representation>, Table))
    requires TableOk(t, next)
    ensures who.Authenticated? ==> r == Create(t, next, who, body)
    ensures who.Anonymous? ==> r.1 == t && r.0.Failed? && r.0.error != NotAuthenticated
    ensures who.Anonymous? ==> (r.0 == Failed(ServerError) <==> Validate(body, false).Ok?)
    ensures who.Anonymous? && Validate(body, false).Err? ==> r.0 == Failed(Validate(body, false).error)
  {
    if Admit(PermissionFor("create_product"), who).Some? then (Failed(NotAuthenticated), t)
    else
      var v := Validate(body, false);
      if v.Err? then (Failed(v.error), t)
      else if who.Anonymous? then (Failed(ServerError), t)
      else Create(t, next, who, body)
  }
  /** A complete, valid product body. */
  const PhoneBody: Body :=
    map["name" := Str("Phone"), "description" := Str("A phone"), "price" := Num(19999), "stock" := Num(5)]

  /** The discrepancy on a concrete request: an anonymous `create_product`
      with a valid body gets past `get_permissions` and ends in a server
      error, where the decorator's policy refuses it as not authenticated. */
  lemma AnonymousCreateWithValidBody(t: Table, next: ProductId)
    requires TableOk(t, next)
    ensures CreateAsWritten(t, next, Anonymous, PhoneBody) == (Failed(ServerError), t)
    ensures Create(t, next, Anonymous, PhoneBody) == (Failed(NotAuthenticated), t)
  {
    assert Strip("Phone") == "Phone";
    assert Strip("A phone") == "A phone";
    assert BadFields(PhoneBody, false) == {} by {
      assert !Fails(Name, PhoneBody, false) && !Fails(Description, PhoneBody, false);
    }
  }


  /** A partial update with a body that passed validation keeps a product
      within its field limits. */
  lemma UpdateKeepsWellFormed(p: Product, body: Body)
    requires WellFormed(p) && Validate(body, true).Ok?
    ensures WellFormed(Update(p, Validate(body, true).value))
  {
    var data := Validate(body, true).value;
    assert Name in data ==> CleanField(Name, body["name"]) == Some(data[Name]);
    assert Description in data ==> CleanField(Description, body["description"]) == Some(data[Description]);
    assert Price in data ==> CleanField(Price, body["price"]) == Some(data[Price]);
  }

  /** Replacing a product by a well-formed one keeps the table's
      guarantees and leaves the other rows alone. */
  lemma ReplaceKeepsTableOk(t: Table, next: ProductId, pk: ProductId, p: Product)
    requires TableOk(t, next) && pk in t && WellFormed(p)
    ensures t[pk := p].Keys == t.Keys
    ensures forall id :: id in t && id != pk ==> t[pk := p][id] == t[id]
    ensures TableOk(t[pk := p], next)
  {
  }

  /** `partial_update`: a logged-in owner may change the supplied fields
      of an active product; every failure, checked in the order not
      logged in, not found, not the owner, invalid, leaves the table as it
      was. */
  function PartialUpdate(t: Table, next: ProductId, who: Requester, pk: ProductId, body: Body): (r: (Outcome<Representation>, Table))
    requires TableOk(t, next)
    ensures r.0.Failed? ==> r.1 == t
    ensures who.Anonymous? ==> r.0 == Failed(NotAuthenticated)
    ensures who.Authenticated? ==>
      (r.0 == Failed(NotFound(FrameworkNotFound)) <==> !(pk in t && t[pk].isActive))
    ensures r.0 == Failed(PermissionDenied("You do not have permission to update this product.")) <==>
      who.Authenticated? && pk in t && t[pk].isActive && who.uid != t[pk].owner
    ensures r.0.Done? <==>
      who.Authenticated? && pk in t && t[pk].isActive && who.uid == t[pk].owner && Validate(body, true).Ok?
    ensures who.Authenticated? && pk in t && t[pk].isActive && who.uid == t[pk].owner && Validate(body, true).Err? ==>
      r.0 == Failed(Validate(body, true).error)
    ensures r.0.Done? ==>
      && r.0.status == 200
      && r.1.Keys == t.Keys
      && (forall id :: id in t && id != pk ==> r.1[id] == t[id])
      && r.1[pk].owner == t[pk].owner
      && r.1[pk].isActive
      && (forall f :: Writable(f) && Key(f) !in body ==> Get(r.1[pk], f) == Get(t[pk], f))
      && (forall f :: f in Cleaned(body) ==> Get(r.1[pk], f) == Cleaned(body)[f])
      && ("image" !in body ==> r.1[pk].image == t[pk].image)
      && r.0.body == Represent(pk, r.1[pk])
    ensures TableOk(r.1, next)
  {
    if Admit(CorrectedPermissionFor("partial_update"), who).Some? then (Failed(NotAuthenticated), t)
    else
      match GetObject(t, pk)
      case Err(e) => (Failed(e), t)
      case Ok(p) =>
        if who.uid != p.owner then
          (Failed(PermissionDenied("You do not have permission to update this product.")), t)
        else
          var v := Validate(body, true);
          if v.Err? then (Failed(v.error), t)
          else
            var p' := Update(p, v.value);
            UpdateKeepsWellFormed(p, body);
            ReplaceKeepsTableOk(t, next, pk, p');
            (Done(200, Represent(pk, p')), t[pk := p'])
  }

  /** `destroy`: only the owner of an active product may delete it, which
      removes the row and answers 204; otherwise nothing changes. */
  function Destroy(t: Table, next: ProductId, who: Requester, pk: ProductId): (r: (Outcome<()>, Table))
    requires TableOk(t, next)
    ensures r.0.Failed? ==> r.1 == t
    ensures who.Anonymous? ==> r.0 == Failed(NotAuthenticated)
    ensures who.Authenticated? ==>
      (r.0 == Failed(NotFound("Product not found.")) <==> !(pk in t && t[pk].isActive))
    ensures r.0 == Failed(PermissionDenied("You do not have permission to delete this product.")) <==>
      who.Authenticated? && pk in t && t[pk].isActive && who.uid != t[pk].owner
    ensures r.0.Done? <==> who.Authenticated? && pk in t && t[pk].isActive && who.uid == t[pk].owner
    ensures r.0.Done? ==> r.0.status == 204 && r.1 == t - {pk} && pk !in r.1
    ensures TableOk(r.1, next)
  {
    if Admit(CorrectedPermissionFor("destroy"), who).Some? then (Failed(NotAuthenticated), t)
    else
      match Lookup(t, pk)
      case Err(e) => (Failed(e), t)
      case Ok(p) =>
        if who.uid != p.owner then
          (Failed(PermissionDenied("You do not have permission to delete this product.")), t)
        else
          (Done(204, ()), t - {pk})
  }

  /** The answer to a successful purchase. */
  datatype Purchase = Purchase(status: string, remainingStock: int)

  /** `buy`: any logged-in requester may buy an active product whose stock
      is above zero, which lowers that stock, and nothing else, by exactly
      one and reports what is left; otherwise nothing changes. */
  function Buy(t: Table, who: Requester, pk: ProductId): (r: (Outcome<Purchase>, Table))
    ensures r.0.Failed? ==> r.1 == t
    ensures who.Anonymous? ==> r.0 == Failed(NotAuthenticated)
    ensures who.Authenticated? ==>
      (r.0 == Failed(NotFound("Product not found.")) <==> !(pk in t && t[pk].isActive))
    ensures r.0 == Failed(BadRequest("Product is out of stock.")) <==>
      who.Authenticated? && pk in t && t[pk].isActive && t[pk].stock <= 0
    ensures r.0.Done? <==> who.Authenticated? && pk in t && t[pk].isActive && t[pk].stock > 0
    ensures r.0.Failed? ==> ErrorStatus(r.0.error) in {400, 401, 404}
    ensures r.0.Done? ==>
      && r.0.status == 200
      && r.1.Keys == t.Keys
      && (forall id :: id in t && id != pk ==> r.1[id] == t[id])
      && r.1[pk].stock == t[pk].stock - 1
      && r.1[pk].(stock := t[pk].stock) == t[pk]
      && r.0.body == Purchase("Product purchased", r.1[pk].stock)
    ensures pk in t && t[pk].stock >= 0 ==> pk in r.1 && r.1[pk].stock >= 0
  {
    if Admit(CorrectedPermissionFor("buy"), who).Some? then (Failed(NotAuthenticated), t)
    else
      match Lookup(t, pk)
      case Err(e) => (Failed(e), t)
      case Ok(p) =>
        if p.stock > 0 then
          var p' := p.(stock := p.stock - 1);
          (Done(200, Purchase("Product purchased", p'.stock)), t[pk := p'])
        else
          (Failed(BadRequest("Product is out of stock.")), t)
  }

  /** `on_delete=CASCADE` on the owner: deleting a user removes every
      product that user owns, active or not, and keeps all the others. */
  function OnOwnerDeleted(t: Table, uid: UserId): (r: Table)
    ensures forall id :: id in r <==> id in t && t[id].owner != uid
    ensures forall id :: id in r ==> r[id] == t[id]
  {
    map id | id in t && t[id].owner != uid :: t[id]
  }
}
