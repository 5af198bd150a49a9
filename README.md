# E-commerce backend: users, products and JWT authentication

A Dafny model of the request handling of a small Django REST Framework shop
backend. The model covers three view sets:

- **Products** (`ProductViewSet`, `ProductSerializer`, `Product`). Anyone may
  list and retrieve active products. Logged-in users may create products;
  the creator becomes the owner. Only the owner may update or delete a
  product. Any logged-in user may buy one unit of a product that is in stock.
- **Users** (`UserViewSet`, `UserSerializer`, `UserCreateSerializer`, `User`).
  The views list active users, sign users up with a hashed password, update
  a profile (names and e-mail), and hard-delete a user together with that
  user's products.
- **Authentication** (`AuthenticationViewSet`). Login checks an e-mail and
  password and issues a refresh/access token pair. Logout blacklists a
  refresh token.

## How the model is organised

Each endpoint is a function from the tables and the request to the answer
and the new table. These are `Products.Create`, `Users.PartialUpdate`,
`Auth.Login`, and so on. Each answer is a status with a body, or an error
that carries its HTTP status. The functions' contracts state the decision
rules of the source:

- which error comes first;
- which rows change and which stay put;
- what the response holds and what it never holds;
- that a failed request leaves the table unchanged.

`Backend.Database` is the database the endpoints share. It is a class
whose fields are the user table, the product table, the token blacklist
and the two auto-increment counters. Each of its methods performs its
endpoint's steps in place, writing rows through `save()`-like primitives
(`InsertProduct`, `SaveProduct`, `InsertUser`, `SaveUser`). Each method is
proved to leave the tables exactly as the matching function says.

`Database.Valid()` holds the database's integrity constraints, and every
method keeps them:

- unique e-mails;
- rows within their column limits;
- ids below their counters;
- every product owned by a stored user.

`ProductSerializer.update` removes `user` and `id` from the validated data
one key at a time. `Products.DiscardImmutable` is that loop.

Request bodies are maps from field names to text or numbers. Validation
follows the framework's field semantics as configured by the source:

- text is trimmed, must not be blank, and must fit the column length;
- `id` and `user` are read-only and `password` is write-only;
- `image` is optional;
- a partial update only validates the keys it is given;
- a `ValidationError` names every failing field.

Three pieces of library code are parameters of the model (the
`Common.Collaborators` record): the password hasher (`make_password` and
`check_password`), the token service (`RefreshToken.for_user` and whether
a token parses), and the e-mail format validator. The only property of
the hasher that is assumed, and only where it is stated, is
`Common.HasherSound`: a password checks against its own hash.

The model follows the code, including where its behaviour may surprise:

- E-mails are matched exactly, not case-normalised.
- `price` and `stock` have no lower bound at the model level; only `buy`
  keeps stock from going negative.
- Deleting a user is a hard delete.
- Logout validates a `refresh_token` field but acts on the body's `refresh`
  value (`Properties.LogoutIgnoresRefreshToken`).
- Logout's handler for a refused token names an exception class that does
  not exist, so a refused token ends in a server error; see "## Findings".
- `create_product` does not require a logged-in user; see "## Findings".

## Model

| member | source | states |
|---|---|---|
| Common.CleanText | apps/authentication/serializers/authentication_serializer.py:9-10 | a text field accepts exactly text that trims to something non-blank, within its length limit and free of null characters, and yields the trimmed text |
| Users.SerializerFor | apps/users/views/user_view.py:27-31 | the create schema is chosen for `create_user` only; only it takes a password; no schema renders one; e-mail is always read and rendered |
| Users.CleanField | apps/users/models/user.py:9-15 | a value is accepted exactly when it is text that trims to non-blank text without null characters within the field's limit (30 for each name, 255 for the e-mail, 128 for the password) and, for the e-mail, is in e-mail format and belongs to no other user; the accepted value is the trimmed text |
| Users.Validate | apps/users/serializers/user_serializer.py:18-30 | valid iff no schema field fails; the error names exactly the failing fields; the data holds exactly the schema fields present in the body, each cleaned; a full validation needs every field |
| Users.GetObject | apps/users/views/user_view.py:33-37 | found iff the id is stored and active; otherwise NotFound "Object not found" |
| Users.List | apps/users/views/user_view.py:57-59 | exactly the active users, each as its profile (id, names, e-mail) |
| Users.NewUser | apps/users/serializers/user_serializer.py:32-37 | the stored user holds the trimmed names and e-mail and `make_password` of the password, is active, well-formed, and its e-mail is free |
| Users.Create | apps/users/views/user_view.py:85-94 | succeeds iff the create schema validates, and otherwise answers the serializer's ValidationError naming the failing fields; 201 with the new id and profile only; one new row under the next id; other rows and failures unchanged |
| Users.SaveKeepsTableOk | apps/users/serializers/user_serializer.py:7-15 | saving partially validated profile data keeps the user well-formed, its e-mail unique and the table's guarantees; each supplied field is stored trimmed, the others kept |
| Users.PartialUpdate | apps/users/views/user_view.py:118-128 | NotFound iff the user is missing or inactive; succeeds iff it is found and the body validates partially, and otherwise answers the serializer's ValidationError; only the supplied first_name, last_name and email change; the password and other rows are untouched |
| Users.Delete | apps/users/views/user_view.py:139-142 | 204 and the row removed iff the user is active; afterwards a lookup of that id fails; otherwise NotFound and nothing changes |
| Users.InsertKeepsTableOk | apps/users/models/user.py:11-15 | inserting a well-formed user whose e-mail nobody has keeps e-mails unique and the other rows as they were |
| Users.ReplaceKeepsTableOk | apps/users/models/user.py:11-15 | replacing a user by a well-formed record whose e-mail no other user has keeps the table's guarantees |
| Products.PermissionFor | apps/products/views/product_view.py:18-21 | `get_permissions` as written: IsAuthenticated exactly for create, update, partial_update, destroy and buy; AllowAny for list, retrieve and create_product |
| Products.CorrectedPermissionFor | apps/products/views/product_view.py:73-74 | with the decorator's IsAuthenticated honoured; differs from the as-written policy on `create_product` alone |
| Products.Admit | apps/products/views/product_view.py:18-21 | only an anonymous requester on an IsAuthenticated action is refused, with NotAuthenticated |
| Products.CleanField | apps/products/models/product.py:9-13 | a value is accepted exactly when it meets its field's rules: name and description are text that trims to non-blank text (the name at most 255 characters), price a number below 10^10 cents in magnitude, stock any integer, image a non-empty reference; texts are stored trimmed, numbers and the image as given |
| Products.Cleaned | apps/products/serializers/product_serializer.py:12-22 | holds exactly the writable fields present in the body that pass, each with its cleaned value, typed by field |
| Products.Validate | apps/products/serializers/product_serializer.py:8-22 | valid iff no writable field fails; the error names exactly the failing fields; `user` and `id` are never read; a full validation needs every field but `image` |
| Products.DiscardImmutable | apps/products/serializers/product_serializer.py:40-41 | the loop leaves exactly the data without `user` and `id` |
| Products.Update | apps/products/serializers/product_serializer.py:33-43 | owner and active flag never change; every field in the data is overwritten and every other field kept, a missing image staying missing |
| Products.UpdateKeepsWellFormed | apps/products/serializers/product_serializer.py:33-43 | a product within its column limits stays within them after `update` with data that passed validation as an update body |
| Products.Lookup | apps/products/views/product_view.py:185-192 | found iff stored and active; otherwise NotFound "Product not found." |
| Products.GetObject | apps/products/views/product_view.py:16 | the framework lookup over the active products: found iff stored and active |
| Products.List | apps/products/views/product_view.py:26-49 | exactly the active products, each rendered with its owner as `user` |
| Products.Retrieve | apps/products/views/product_view.py:51-71 | 200 with the rendering iff the product is active; otherwise NotFound |
| Products.NewProduct | apps/products/serializers/product_serializer.py:24-31 | the stored product is owned by the requester whatever the body says, holds the trimmed texts and given numbers, the image only when supplied, and is active and well-formed |
| Products.InsertKeepsTableOk | apps/products/models/product.py:7-13 | a well-formed product inserted under the counter gets a fresh id and keeps the other rows |
| Products.Create | apps/products/views/product_view.py:101-104 | with the corrected policy: anonymous gets NotAuthenticated; succeeds iff logged in and the body validates fully, and a logged-in requester's invalid body answers the serializer's ValidationError; 201, one new row under the next id owned by the requester; failures change nothing |
| Products.CreateAsWritten | apps/products/views/product_view.py:73-104 | as written: an anonymous requester is not refused; with a valid body the save fails with a server error, with an invalid one the serializer's ValidationError; the table never changes |
| Products.AnonymousCreateWithValidBody | apps/products/views/product_view.py:101-103 | for a concrete valid body, anonymous creation as written ends in a server error, and with the corrected policy in NotAuthenticated |
| Products.ReplaceKeepsTableOk | apps/products/models/product.py:7-13 | replacing a row by a well-formed product keeps the other rows and the table's guarantees |
| Products.PartialUpdate | apps/products/views/product_view.py:124-130 | checked in order: anonymous, not found, not the owner (PermissionDenied), invalid; success iff owner and partially valid, and the owner's invalid body answers the serializer's ValidationError; every supplied field then holds its cleaned value, absent fields (a missing image included) and the owner are kept, other rows untouched; failures change nothing |
| Products.Destroy | apps/products/views/product_view.py:144-150 | 204 and the row removed iff the requester owns the active product; a non-owner gets PermissionDenied and the product stays |
| Products.Buy | apps/products/views/product_view.py:173-183 | succeeds iff active and stock > 0; stock drops by exactly 1 and nothing else changes; answers "Product purchased" with the remaining stock; otherwise "Product is out of stock." or NotFound, unchanged; a failure is answered 400, 401 or 404; stock >= 0 is kept |
| Products.OnOwnerDeleted | apps/products/models/product.py:8 | the cascade removes exactly the products of the deleted owner and keeps every other product as it was |
| Auth.SerializerFor | apps/authentication/views/auth_view.py:26-30 | the login schema for `login` only; only it takes a password; every other action takes `refresh_token`; no schema renders a password |
| Auth.CleanLoginField | apps/authentication/serializers/authentication_serializer.py:4-6 | a value is accepted exactly when it is text that trims to non-blank text without null characters and, for the e-mail, is in e-mail format; the accepted value is the trimmed text |
| Auth.ValidateLogin | apps/authentication/serializers/authentication_serializer.py:4-6 | valid iff e-mail and password pass; the error names the failing fields; the credentials are the trimmed values |
| Auth.FindByEmail | apps/authentication/views/auth_view.py:66-70 | none iff no user, active or not, has exactly that e-mail; otherwise the one user who has it |
| Auth.Login | apps/authentication/views/auth_view.py:59-99 | validation errors first; "User with the provided email does not exist" iff no such user; "Incorrect password" iff the check fails; 200 exactly when the body validates, the user exists and the password checks, with the user's tokens and profile (no password); every failure is a ValidationError (400) or AuthenticationFailed (401) |
| Auth.Logout | apps/authentication/views/auth_view.py:115-129 | no `refresh_token` gives a ValidationError; a missing or falsy `refresh` gives 200; a `refresh` the library accepts (valid and not yet blacklisted) is added to the blacklist with 200; a refused one gives 400 "Refresh token is invalid" and the blacklist changes only in the accepted case |
| Auth.LogoutAsWritten | apps/authentication/views/auth_view.py:120-126 | as written, a refused `refresh` ends in a server error, exactly where the intended handler answers 400; every other answer and the blacklist agree with `Auth.Logout` |
| Auth.BlacklistedLogout | apps/authentication/views/auth_view.py:121-123 | for a concrete body whose `refresh` is already blacklisted, logout as written ends in a server error and as intended in 400 |
| Backend.Database.InsertProduct | apps/products/views/product_view.py:103 | `save()` of a new product: inserted under the next id, constraints kept, nothing else touched |
| Backend.Database.SaveProduct | apps/products/views/product_view.py:176 | `save()` of a loaded product: its row overwritten, constraints kept, nothing else touched |
| Backend.Database.InsertUser | apps/users/views/user_view.py:87 | `save()` of a new user: inserted under the next id, constraints kept |
| Backend.Database.SaveUser | apps/users/views/user_view.py:121 | `save()` of a loaded user: its row overwritten, constraints kept |
| Backend.Database.CreateProduct | apps/products/views/product_view.py:101-104 | the steps of create_product leave answer and table as `Products.Create` says, and the counter advanced only on success |
| Backend.Database.PartialUpdateProduct | apps/products/views/product_view.py:124-130 | the steps of partial_update (including the `user`/`id` removal loop) leave answer and table as `Products.PartialUpdate` says |
| Backend.Database.DestroyProduct | apps/products/views/product_view.py:144-150 | the steps of destroy leave answer and table as `Products.Destroy` says |
| Backend.Database.BuyProduct | apps/products/views/product_view.py:173-183 | the steps of buy leave answer and table as `Products.Buy` says |
| Backend.Database.CreateUser | apps/users/views/user_view.py:85-94 | the steps of create_user leave answer and table as `Users.Create` says |
| Backend.Database.PartialUpdateUser | apps/users/views/user_view.py:118-128 | the steps of partial_update leave answer and table as `Users.PartialUpdate` says |
| Backend.Database.DeleteUser | apps/users/views/user_view.py:139-142 | the user goes and, by the cascade, exactly that user's products; no product of the deleted user remains; the foreign key still holds |
| Backend.Database.Logout | apps/authentication/views/auth_view.py:115-129 | the steps of logout leave answer and blacklist as `Auth.Logout` says (a token already blacklisted is refused), and the tables untouched |
| Properties.Step | apps/products/views/product_view.py:101-183 | one product request keeps the table's guarantees and adds a row only under the counter |
| Properties.Run | apps/products/views/product_view.py:101-183 | a sequence of product requests keeps the guarantees; every new row has an id at or above the old counter |
| Properties.StepKeepsOwner | apps/products/serializers/product_serializer.py:33-43 | no single product request changes the owner of a product that survives it |
| Properties.RunKeepsOwner | apps/products/serializers/product_serializer.py:40-43 | after any sequence of product requests, a product still present has its original owner |
| Properties.BuysSellAtMostStock | apps/products/views/product_view.py:173-183 | of n purchases of a product with stock s >= 0, exactly min(n, s) succeed; the stock ends at s - min(n, s) >= 0; nothing else changes |
| Properties.BadFieldsIgnoreReadOnly | apps/products/serializers/product_serializer.py:8 | the fields a product body fails on do not depend on a `user` or `id` key |
| Properties.CleanedIgnoresReadOnly | apps/products/serializers/product_serializer.py:12-19 | the cleaned data of a product body does not depend on a `user` or `id` key |
| Properties.ValidateIgnoresReadOnly | apps/products/serializers/product_serializer.py:8 | a `user` or `id` key in a product body does not change its validation |
| Properties.CreateIgnoresReadOnly | apps/products/serializers/product_serializer.py:29-31 | a `user` or `id` key in the body of create_product changes neither answer nor table |
| Properties.UpdateIgnoresReadOnly | apps/products/serializers/product_serializer.py:40-43 | a `user` or `id` key in the body of partial_update changes neither answer nor table |
| Properties.SignUpThenLogIn | apps/authentication/views/auth_view.py:66-99 | with a sound hasher, a user signed up with a body logs in with the same body and receives its own tokens and profile |
| Properties.ListIgnoresPasswords | apps/users/serializers/user_serializer.py:11-15 | two user tables that differ only in password hashes list the same profiles |
| Properties.LogoutTwiceRefused | apps/authentication/views/auth_view.py:118-129 | once a logout has blacklisted its `refresh` token, the same body is refused (400 as intended, a server error as written) and the blacklist stays unchanged |
| Properties.LogoutIgnoresRefreshToken | apps/authentication/views/auth_view.py:115-118 | a body holding only a non-blank `refresh_token` free of null characters is answered 200 and blacklists nothing |

## Left out

- HTTP routing, rendering and multipart parsing are not modelled. A body is a map of text and integer values. The framework's coercion between numbers and numeric strings is not modelled.
- Password hashing, JWT signing and expiry are not modelled. They are parameters (`Collaborators`): whether a refresh token parses, is signed and has not expired is `tokenValid`. The blacklist is a set of tokens, and the library's refusal of a blacklisted token is modelled (`Auth.Accepted`).
- The e-mail format check is a parameter (`isEmail`). Its regular expression is library code.
- The debug `print` calls in `login` and `User.save` are output only.
- The `logout(request)` session call in `logout` is a side effect on the session and touches no table.
- `UserViewSet.get_permission_classes` is not the framework's permission hook. The framework never calls it, so the user endpoints take no requester. The project's default permission settings are not part of this model.
- `buy` reads and then saves without a lock. The model runs requests one at a time, so lost updates under concurrency are not captured.
- Image files are not modelled: an image is its stored reference (non-empty text).
- `price` is an integer number of cents below 10^10 in magnitude, that is at most 8 whole digits. The input's written form is not modelled: the framework counts the decimal places as written and rejects more than two, even trailing zeros ("15.000" is refused although it is 1500 cents), and the model cannot express that.
- Text trimming removes exactly the characters Python's `str.isspace()` accepts. Lengths count code points, as Python does.
- `__str__` of `Product` (its name) and of `User` (its e-mail) are display helpers. No endpoint renders them, so they are left out.
- Integer columns have no database range limits in the model.
- The order of `list` results is not modelled: lists are maps keyed by id.
- The `BaseModel` base class (apps/default/models/base_model.py) is not part of this model. Only the `is_active` flag is taken from it.
- Ids in URLs are natural numbers in the model. A non-integer `pk` (such as "abc") is not modelled: `queryset.get(pk=pk)` then raises ValueError rather than DoesNotExist, so the custom lookups of product retrieve, destroy and buy and of user partial_update and delete would answer a server error, while the framework's `get_object` used by product partial_update answers 404.
- Auto-increment ids come from a counter in the model. Ids stay below it, so a deleted id is never reused. The database's own sequence is not modelled.
- The framework's own not-found message is the constant `FrameworkNotFound` ("Not found."), the text Django REST Framework uses before version 3.15. From 3.15 on the framework passes Django's message through instead ("No Product matches the given query."). The installed version is not part of this model, nor is the translation machinery.

## Findings

| source | as written | input that shows it | evidently intended | confidence | as-written member | corrected member |
|---|---|---|---|---|---|---|
| apps/products/views/product_view.py:18-21 | `get_permissions` overrides the `@action(permission_classes=[IsAuthenticated])` of `create_product` (line 73) and returns AllowAny for it, because `create_product` is not in its list; an anonymous request with a valid body reaches `serializer.save(user=request.user)` and fails assigning the anonymous user to the owner foreign key (a server error) | anonymous POST with name "Phone", description "A phone", price 19999, stock 5 | anonymous creation refused with 401 NotAuthenticated, as the decorator declares | high (not executed) | Products.CreateAsWritten, Products.AnonymousCreateWithValidBody | Products.Create, Products.CorrectedPermissionFor |
| apps/authentication/views/auth_view.py:123 | `except RefreshToken.InvalidToken` names an attribute the token class does not define (the library's refusal is a `TokenError`); when `RefreshToken(t)` refuses a token, evaluating the clause raises again and the request ends in a server error | logout with `refresh_token` "r" and `refresh` "r", where "r" is already blacklisted | 400 "Refresh token is invalid" for a refused token | medium (not executed; rests on the token library's code) | Auth.LogoutAsWritten, Auth.BlacklistedLogout | Auth.Logout |
