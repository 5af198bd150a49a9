/** Properties that relate several requests, or one request to another
    input: a product's owner survives every sequence of product requests,
    purchases never sell more than the stock, the read-only `user` and
    `id` keys of a body have no effect, a user who signs up can log in with
    the same body, the user list says nothing about stored passwords, and
    a refresh token logs out only once. */
module Properties {
  import opened Common
  import Users
  import Products
  import Auth

  // ---------------------------------------------------------------------
  // Runs of product requests

  /** A request to one of the product endpoints that may change the table. */
  datatype ProductRequest =
    | CreateProduct(who: Requester, body: Body)
    | UpdateProduct(who: Requester, pk: Products.ProductId, body: Body)
    | DestroyProduct(who: Requester, pk: Products.ProductId)
    | BuyProduct(who: Requester, pk: Products.ProductId)

  /** The table and the id counter after one request; only a create adds
      a row, and only under the counter's value. */
  function Step(t: Products.Table, next: Products.ProductId, q: ProductRequest): (r: (Products.Table, Products.ProductId))
    requires Products.TableOk(t, next)
    ensures Products.TableOk(r.0, r.1) && next <= r.1
    ensures forall id :: id in r.0 && id !in t ==> id == next
  {
    match q
    case CreateProduct(who, body) =>
      var (o, t') := Products.Create(t, next, who, body);
      (t', if o.Done? then next + 1 else next)
    case UpdateProduct(who, pk, body) => (Products.PartialUpdate(t, next, who, pk, body).1, next)
    case DestroyProduct(who, pk) => (Products.Destroy(t, next, who, pk).1, next)
    case BuyProduct(who, pk) =>
      var (o, t') := Products.Buy(t, who, pk);
      assert o.Done? ==> Products.WellFormed(t'[pk]) by {
        if o.Done? {
          assert t'[pk].(stock := t[pk].stock) == t[pk];
        }
      }
      (t', next)
  }

  /** The table and the id counter after a sequence of requests; every row
      that was not there before has an id at or above the old counter. */
  function Run(t: Products.Table, next: Products.ProductId, qs: seq<ProductRequest>): (r: (Products.Table, Products.ProductId))
    requires Products.TableOk(t, next)
    ensures Products.TableOk(r.0, r.1) && next <= r.1
    ensures forall id :: id in r.0 && id !in t ==> next <= id
    decreases |qs|
  {
    if qs == [] then (t, next)
    else
      var s := Step(t, next, qs[0]);
      Run(s.0, s.1, qs[1..])
  }

  /** One request never changes the owner of a product that survives it. */
  lemma StepKeepsOwner(t: Products.Table, next: Products.ProductId, q: ProductRequest, id: Products.ProductId)
    requires Products.TableOk(t, next) && id in t && id in Step(t, next, q).0
    ensures Step(t, next, q).0[id].owner == t[id].owner
  {
    match q
    case CreateProduct(who, body) =>
    case UpdateProduct(who, pk, body) =>
    case DestroyProduct(who, pk) =>
    case BuyProduct(who, pk) =>
      var (o, t') := Products.Buy(t, who, pk);
      if o.Done? && id == pk {
        assert t'[pk].(stock := t[pk].stock) == t[pk];
      }
  }

  /** The owner of a product is immutable: after any sequence of creates,
      updates (whatever `user` they carry), deletions and purchases, a
      product that is still there has the owner it had before. Ids are
      never reused, so a deleted product cannot come back under another
      owner. */
  lemma {:induction false} RunKeepsOwner(t: Products.Table, next: Products.ProductId, qs: seq<ProductRequest>, id: Products.ProductId)
    requires Products.TableOk(t, next) && id in t && id in Run(t, next, qs).0
    ensures Run(t, next, qs).0[id].owner == t[id].owner
    decreases |qs|
  {
    if qs != [] {
      var s := Step(t, next, qs[0]);
      assert Run(t, next, qs) == Run(s.0, s.1, qs[1..]);
      assert id < next <= s.1;
      assert id in s.0;
      StepKeepsOwner(t, next, qs[0], id);
      RunKeepsOwner(s.0, s.1, qs[1..], id);
    }
  }

  // ---------------------------------------------------------------------
  // Sequential purchases

  function Min(a: int, b: int): int {
    if a <= b then a else b
  }

  /** `n` purchases of one product by one requester, one after the other:
      the final table and how many of them succeeded. */
  function Buys(t: Products.Table, who: Requester, pk: Products.ProductId, n: nat): (Products.Table, nat)
    decreases n
  {
    if n == 0 then (t, 0)
    else
      var (o, t') := Products.Buy(t, who, pk);
      var (t'', k) := Buys(t', who, pk, n - 1);
      (t'', if o.Done? then k + 1 else k)
  }

  /** Of `n` purchases of an active product with stock `s >= 0`, exactly
      `min(n, s)` succeed, the stock drops by that much and never below
      zero, and nothing else in the table changes. */
  lemma {:induction false} BuysSellAtMostStock(t: Products.Table, who: Requester, pk: Products.ProductId, n: nat)
    requires who.Authenticated? && pk in t && t[pk].isActive && t[pk].stock >= 0
    ensures var (t', k) := Buys(t, who, pk, n);
      && k == Min(n, t[pk].stock)
      && t'.Keys == t.Keys
      && t'[pk].stock == t[pk].stock - k >= 0
      && t'[pk].(stock := t[pk].stock) == t[pk]
      && forall id :: id in t && id != pk ==> t'[id] == t[id]
    decreases n
  {
    if n > 0 {
      var (o, t1) := Products.Buy(t, who, pk);
      assert pk in t1 && t1[pk].isActive && t1[pk].stock >= 0;
      BuysSellAtMostStock(t1, who, pk, n - 1);
    }
  }

  // ---------------------------------------------------------------------
  // Read-only fields

  /** No writable field is read under `user` or `id`. */
  lemma WritableKeysAvoid(body: Body, key: string, v: Value)
    requires key == "user" || key == "id"
    ensures forall f: Products.Field :: Products.Writable(f) ==>
      && (Products.Key(f) in body[key := v] <==> Products.Key(f) in body)
      && (Products.Key(f) in body ==> body[key := v][Products.Key(f)] == body[Products.Key(f)])
  {
    forall f: Products.Field | Products.Writable(f)
      ensures Products.Key(f) != key
    {
    }
  }

  /** The failing fields do not depend on a `user` or `id` key. */
  lemma BadFieldsIgnoreReadOnly(body: Body, key: string, v: Value, partial: bool)
    requires key == "user" || key == "id"
    ensures Products.BadFields(body[key := v], partial) == Products.BadFields(body, partial)
  {
    WritableKeysAvoid(body, key, v);
    forall f: Products.Field | Products.Writable(f)
      ensures Products.Fails(f, body[key := v], partial) == Products.Fails(f, body, partial)
    {
    }
  }

  /** The cleaned data does not depend on a `user` or `id` key. */
  lemma CleanedIgnoresReadOnly(body: Body, key: string, v: Value)
    requires key == "user" || key == "id"
    ensures Products.Cleaned(body[key := v]) == Products.Cleaned(body)
  {
    WritableKeysAvoid(body, key, v);
    var m, m' := Products.Cleaned(body), Products.Cleaned(body[key := v]);
    assert m'.Keys == m.Keys;
    assert forall f :: f in m ==> m'[f] == m[f];
  }

  /** A `user` or `id` key in a product body changes nothing in its
      validation: both fields are read-only and never read from input. */
  lemma ValidateIgnoresReadOnly(body: Body, key: string, v: Value, partial: bool)
    requires key == "user" || key == "id"
    ensures Products.Validate(body[key := v], partial) == Products.Validate(body, partial)
  {
    BadFieldsIgnoreReadOnly(body, key, v, partial);
    CleanedIgnoresReadOnly(body, key, v);
  }

  /** `create_product` makes the requester the owner whatever the body
      says: a `user` (or `id`) in the body does not change the answer or
      the stored product. */
  lemma CreateIgnoresReadOnly(t: Products.Table, next: Products.ProductId, who: Requester, body: Body, key: string, v: Value)
    requires Products.TableOk(t, next) && (key == "user" || key == "id")
    ensures Products.Create(t, next, who, body[key := v]) == Products.Create(t, next, who, body)
  {
    ValidateIgnoresReadOnly(body, key, v, false);
  }

  /** `partial_update` of a product ignores a `user` (or `id`) in the
      body: the same answer and the same table as without it. */
  lemma UpdateIgnoresReadOnly(t: Products.Table, next: Products.ProductId, who: Requester, pk: Products.ProductId, body: Body, key: string, v: Value)
    requires Products.TableOk(t, next) && (key == "user" || key == "id")
    ensures Products.PartialUpdate(t, next, who, pk, body[key := v]) == Products.PartialUpdate(t, next, who, pk, body)
  {
    ValidateIgnoresReadOnly(body, key, v, true);
  }

  // ---------------------------------------------------------------------
  // Users and authentication

  /** Signing up and then logging in with the same body succeeds: the new
      user is found by the trimmed e-mail, the hashed password checks
      against the plain one, and the reply carries the new user's tokens
      and profile. */
  lemma SignUpThenLogIn(t: Users.Table, next: UserId, body: Body, env: Collaborators)
    requires Users.TableOk(t, next) && HasherSound(env)
    requires Users.Create(t, next, body, env).0.Done?
    ensures var users := Users.Create(t, next, body, env).1;
      && Users.EmailsUnique(users)
      && Auth.Login(users, body, env) ==
         Done(200, Auth.LoginReply(env.issueTokens(next).refresh, env.issueTokens(next).access,
                                   Users.ProfileOf(next, users[next])))
  {
    var users := Users.Create(t, next, body, env).1;
    var v := Users.Validate(t, None, Users.InputFields(Users.CreateSchema), body, false, env);
    assert "email" in v.value && "password" in v.value;
    assert Users.CleanField(t, None, "email", body["email"], env) == Some(v.value["email"]);
    assert Users.CleanField(t, None, "password", body["password"], env) == Some(v.value["password"]);
    assert Auth.CleanLoginField("email", body["email"], env).Some?;
    assert Auth.CleanLoginField("password", body["password"], env).Some?;
    assert Auth.LoginBadFields(body, env) == {};
    var c := Auth.ValidateLogin(body, env).value;
    assert users[next].email == c.email;
    assert Auth.Registered(users, c.email);
    assert Auth.FindByEmail(users, c.email) == Some(next);
    assert env.checkPassword(c.password, users[next].password);
  }

  /** The user list reveals nothing of the stored passwords: two tables
      that differ only in password hashes list the same profiles. */
  lemma ListIgnoresPasswords(t: Users.Table, t': Users.Table)
    requires t.Keys == t'.Keys
    requires forall id :: id in t ==> t'[id] == t[id].(password := t'[id].password)
    ensures Users.List(t') == Users.List(t)
  {
    assert forall id :: id in t ==> Users.ProfileOf(id, t'[id]) == Users.ProfileOf(id, t[id]);
  }

  /** A refresh token works for one logout only: once a logout has
      blacklisted it, the same body is refused, as written with a server
      error and as intended with 400, and the blacklist stays as it is. */
  lemma LogoutTwiceRefused(blacklist: set<string>, body: Body, env: Collaborators)
    requires Auth.Logout(blacklist, body, env).1 != blacklist
    ensures var (o, b) := Auth.Logout(blacklist, body, env);
      && o == Done(200, "Successfully logged out")
      && Auth.Logout(b, body, env) == (Failed(BadRequest("Refresh token is invalid")), b)
      && Auth.LogoutAsWritten(b, body, env) == (Failed(ServerError), b)
  {
  }

  /** A body that holds exactly what the logout schema asks for, a
      non-blank `refresh_token` without null characters, passes validation and is answered 200, yet
      blacklists nothing: the view acts on `refresh` alone. */
  lemma LogoutIgnoresRefreshToken(blacklist: set<string>, token: string, env: Collaborators)
    requires Strip(token) != [] && '\0' !in Strip(token)
    ensures Auth.Logout(blacklist, map["refresh_token" := Str(token)], env) ==
      (Done(200, "Successfully logged out"), blacklist)
  {
  }
}
