/** The request validation of the first scoring API (`hw_03`): each field
    checks the value it is given and raises on the first problem, the
    request collects one message per failing field, runs its own check only
    when no field failed, and the method handler turns the outcome into a
    reply and a status code. */
module ScoringApi {
  import opened Wrappers
  import opened PyValue
  import opened FieldRules

  const Salt: string := "Otus"
  const AdminLogin: string := "admin"
  const AdminSalt: string := "42"
  const Forbidden: int := 403
  const InvalidRequest: int := 422

  /** Why `GeneralField.check` raises. */
  datatype FieldError = NotPresented | Empty | Invalid(message: string)

  function FieldErrorMessage(name: string, e: FieldError): string {
    match e
    case NotPresented => "Field " + name + " must be presented in request"
    case Empty => "Field " + name + " can't be empty."
    case Invalid(m) => m
  }

  /** `GeneralField.check`: the first failing test raises, so a field has at
      most one error.  A `ValueError` from `strptime` is reported like the
      field's own messages. */
  function CheckField(f: Field, v: Value, b: Boundary): (r: Option<FieldError>)
    ensures r == Some(NotPresented) <==> f.required && v == Null
    ensures r == Some(Empty) <==> !(f.required && v == Null) && !f.nullable && IsEmptyLiteral(v)
    ensures r.Some? && r.value.Invalid? ==> Truthy(v)
    ensures !Truthy(v) && r.Some? ==> !r.value.Invalid?
  {
    if f.required && v == Null then Some(NotPresented)
    else if !f.nullable && IsEmptyLiteral(v) then Some(Empty)
    else if Truthy(v) then
      match CheckValue(f.kind, v, b)
      case Pass => None
      case Reject(p) => Some(Invalid(ProblemMessage(f.name, p)))
      case Raise(m) => Some(Invalid(m))
    else None
  }

  /** `0` is not in `['', None, [], {}]` and is false, so it passes every
      field, required and non-nullable ones included. */
  lemma ZeroPasses(f: Field, b: Boundary)
    ensures CheckField(f, Int(0), b) == None
  {
  }

  /** The attributes a request holds after its fields were assigned, and
      the messages of the fields that refused their value. */
  datatype Assigned = Assigned(stored: map<string, Value>, errors: seq<string>)

  /** What one field adds to the error list. */
  function Contribution(f: Field, d: map<string, Value>, b: Boundary): (m: seq<string>)
    ensures |m| <= 1
    ensures m == [] <==> CheckField(f, Get(d, f.name), b).None?
  {
    match CheckField(f, Get(d, f.name), b)
    case None => []
    case Some(e) => [FieldErrorMessage(f.name, e)]
  }

  /** The loop of `GeneralRequest.__init__` over the field names:
      `setattr(self, name, d.get(name))`, where `__set__` checks before it
      stores, and a `ValueError` appends its message. */
  function AssignFields(order: seq<Field>, d: map<string, Value>, b: Boundary): (a: Assigned)
    ensures |a.errors| <= |order|
  {
    if order == [] then Assigned(map[], [])
    else
      var a := AssignFields(order[..|order| - 1], d, b);
      var f := order[|order| - 1];
      if CheckField(f, Get(d, f.name), b).None? then Assigned(a.stored[f.name := Get(d, f.name)], a.errors)
      else Assigned(a.stored, a.errors + Contribution(f, d, b))
  }

  /** Some field called `k` accepts the value the body gives for `k`. */
  predicate Accepted(order: seq<Field>, k: string, d: map<string, Value>, b: Boundary) {
    exists i :: 0 <= i < |order| && order[i].name == k && CheckField(order[i], Get(d, k), b).None?
  }

  /** A value that fails its check is never stored; one that passes is
      stored as the body gave it. */
  lemma {:induction false} AssignedStored(order: seq<Field>, d: map<string, Value>, b: Boundary)
    ensures forall k :: k in AssignFields(order, d, b).stored <==> Accepted(order, k, d, b)
    ensures forall k :: k in AssignFields(order, d, b).stored ==> AssignFields(order, d, b).stored[k] == Get(d, k)
  {
    if order != [] {
      var init := order[..|order| - 1];
      AssignedStored(init, d, b);
      forall k
        ensures Accepted(order, k, d, b) <==>
          (Accepted(init, k, d, b) || (order[|order| - 1].name == k && CheckField(order[|order| - 1], Get(d, k), b).None?))
      {
        AcceptedSnoc(order, k, d, b);
      }
    }
  }

  /** A field accepts `k` in `order` exactly when one does before the last
      field, or the last one does. */
  lemma AcceptedSnoc(order: seq<Field>, k: string, d: map<string, Value>, b: Boundary)
    requires order != []
    ensures Accepted(order, k, d, b) <==>
      (Accepted(order[..|order| - 1], k, d, b) || (order[|order| - 1].name == k && CheckField(order[|order| - 1], Get(d, k), b).None?))
  {
    var init := order[..|order| - 1];
    if Accepted(order, k, d, b) {
      var i :| 0 <= i < |order| && order[i].name == k && CheckField(order[i], Get(d, k), b).None?;
      if i < |init| {
        assert init[i] == order[i];
      }
    }
    if Accepted(init, k, d, b) {
      var i :| 0 <= i < |init| && init[i].name == k && CheckField(init[i], Get(d, k), b).None?;
      assert order[i] == init[i];
    }
  }

  /** Assigning two runs of fields appends their error lists. */
  lemma {:induction false} AssignErrorsAppend(o1: seq<Field>, o2: seq<Field>, d: map<string, Value>, b: Boundary)
    ensures AssignFields(o1 + o2, d, b).errors == AssignFields(o1, d, b).errors + AssignFields(o2, d, b).errors
    decreases |o2|
  {
    if o2 == [] {
      assert o1 + o2 == o1;
    } else {
      var init := o2[..|o2| - 1];
      assert (o1 + o2)[..|o1 + o2| - 1] == o1 + init;
      AssignErrorsAppend(o1, init, d, b);
      var f := o2[|o2| - 1];
      assert (o1 + o2)[|o1 + o2| - 1] == f;
    }
  }

  lemma AssignOne(f: Field, d: map<string, Value>, b: Boundary)
    ensures AssignFields([f], d, b).errors == Contribution(f, d, b)
  {
    assert [f][..0] == [];
  }

  /** Taking the last element out of one sequence and a matching element
      out of another keeps their multisets equal. */
  lemma RemoveMatching<T>(o1: seq<T>, o2: seq<T>, j: nat)
    requires multiset(o1) == multiset(o2) && |o1| > 0
    requires j < |o2| && o2[j] == o1[|o1| - 1]
    ensures multiset(o1[..|o1| - 1]) == multiset(o2[..j] + o2[j + 1..])
  {
    var f := o1[|o1| - 1];
    assert o1 == o1[..|o1| - 1] + [f];
    assert o2 == o2[..j] + [f] + o2[j + 1..];
    assert multiset(o2[..j] + o2[j + 1..]) == multiset(o2) - multiset{f};
  }

  /** Moving one field to the end of the order moves its message, if any,
      to the end of the list. */
  lemma MoveToEnd(o: seq<Field>, j: nat, d: map<string, Value>, b: Boundary)
    requires j < |o|
    ensures multiset(AssignFields(o, d, b).errors)
         == multiset(AssignFields(o[..j] + o[j + 1..], d, b).errors) + multiset(Contribution(o[j], d, b))
  {
    var before, f, after := o[..j], o[j], o[j + 1..];
    assert o == before + [f] + after;
    AssignErrorsAppend(before, after, d, b);
    AssignErrorsAppend(before + [f], after, d, b);
    AssignErrorsAppend(before, [f], d, b);
    AssignOne(f, d, b);
  }

  lemma LastField(o: seq<Field>, d: map<string, Value>, b: Boundary)
    requires |o| > 0
    ensures AssignFields(o, d, b).errors
         == AssignFields(o[..|o| - 1], d, b).errors + Contribution(o[|o| - 1], d, b)
  {
  }

  /** The field names come from a set, so their order is not fixed; every
      order yields the same messages, possibly rearranged. */
  lemma {:induction false} AssignErrorsOrderFree(o1: seq<Field>, o2: seq<Field>, d: map<string, Value>, b: Boundary)
    requires multiset(o1) == multiset(o2)
    ensures multiset(AssignFields(o1, d, b).errors) == multiset(AssignFields(o2, d, b).errors)
    decreases |o1|
  {
    if o1 == [] {
      assert |multiset(o2)| == 0;
    } else {
      var f := o1[|o1| - 1];
      assert f in multiset(o2);
      var j :| 0 <= j < |o2| && o2[j] == f;
      RemoveMatching(o1, o2, j);
      AssignErrorsOrderFree(o1[..|o1| - 1], o2[..j] + o2[j + 1..], d, b);
      MoveToEnd(o2, j, d, b);
      LastField(o1, d, b);
    }
  }

  /** Every order of the fields stores the same attributes. */
  lemma AssignStoredOrderFree(o1: seq<Field>, o2: seq<Field>, d: map<string, Value>, b: Boundary)
    requires multiset(o1) == multiset(o2)
    ensures AssignFields(o1, d, b).stored == AssignFields(o2, d, b).stored
  {
    AssignedStored(o1, d, b);
    AssignedStored(o2, d, b);
    forall k
      ensures Accepted(o1, k, d, b) <==> Accepted(o2, k, d, b)
    {
      if Accepted(o1, k, d, b) {
        var i :| 0 <= i < |o1| && o1[i].name == k && CheckField(o1[i], Get(d, k), b).None?;
        assert o1[i] in multiset(o2);
        var j :| 0 <= j < |o2| && o2[j] == o1[i];
      }
      if Accepted(o2, k, d, b) {
        var i :| 0 <= i < |o2| && o2[i].name == k && CheckField(o2[i], Get(d, k), b).None?;
        assert o2[i] in multiset(o1);
        var j :| 0 <= j < |o1| && o1[j] == o2[i];
      }
    }
  }

  /** The request classes. */
  datatype RequestKind = MethodReq | OnlineScoreReq | ClientsInterestsReq

  /** The fields each class declares, in declaration order. */
  function Declared(kind: RequestKind): seq<Field> {
    match kind
    case MethodReq => [
      Field("account", Char, false, true),
      Field("login", Char, true, true),
      Field("token", Char, true, true),
      Field("arguments", Arguments, true, true),
      Field("method", Char, true, false)]
    case OnlineScoreReq => [
      Field("first_name", Char, false, true),
      Field("last_name", Char, false, true),
      Field("email", Email, false, true),
      Field("phone", Phone, false, true),
      Field("birthday", BirthDay, false, true),
      Field("gender", Gender, false, true)]
    case ClientsInterestsReq => [
      Field("client_ids", ClientIds, true, false),
      Field("date", DateText, false, true)]
  }

  /** Reading an attribute: absent when its value was refused, and then
      Python raises (`None` here). */
  function Attr(stored: map<string, Value>, name: string): (r: Option<Value>)
    ensures r.Some? <==> name in stored
    ensures r.Some? ==> r.value == stored[name]
  {
    if name in stored then Some(stored[name]) else None
  }

  /** The pair message; its hyphens are U+2011 (non-breaking). */
  const PairMessage: string := "Some of the pairs phone\U{2011}email, first_name\U{2011}last_name or gender\U{2011}birthday must be filled"

  /** The pair rule, read on stored values. */
  predicate PairFilled(stored: map<string, Value>) {
    || (Truthy(Get(stored, "phone")) && Truthy(Get(stored, "email")))
    || (Truthy(Get(stored, "first_name")) && Truthy(Get(stored, "last_name")))
    || (Get(stored, "gender") != Null && Truthy(Get(stored, "birthday")))
  }

  /** The request-level `check`: nothing for most classes; for online
      scoring, the pair rule, evaluated left to right with short circuits
      (`None` when it reads an attribute that was never stored). */
  function RequestCheck(kind: RequestKind, stored: map<string, Value>): (r: Option<seq<string>>)
    ensures kind != OnlineScoreReq ==> r == Some([])
    ensures r.Some? && kind == OnlineScoreReq ==> (r.value == [] <==> PairFilled(stored))
    ensures r.Some? ==> r.value == [] || r.value == [PairMessage]
  {
    if kind != OnlineScoreReq then Some([])
    else
      var phone :- Attr(stored, "phone");
      var phoneEmail :- if Truthy(phone) then (var email :- Attr(stored, "email"); Some(Truthy(email))) else Some(false);
      if phoneEmail then Some([])
      else
        var first :- Attr(stored, "first_name");
        var names :- if Truthy(first) then (var last :- Attr(stored, "last_name"); Some(Truthy(last))) else Some(false);
        if names then Some([])
        else
          var gender :- Attr(stored, "gender");
          var genderBirthday :- if gender != Null then (var birthday :- Attr(stored, "birthday"); Some(Truthy(birthday))) else Some(false);
          if genderBirthday then Some([]) else Some([PairMessage])
  }

  /** A constructed request: its stored attributes and its errors. */
  datatype Request = Request(stored: map<string, Value>, errors: seq<string>)

  const EmptyMessage: string := "Request is empty."

  /** `GeneralRequest.__init__(d)`, iterating the field names in `order`
      (the iteration order of a set).  `None` when the request-level check
      raises. */
  function Construct(kind: RequestKind, order: seq<Field>, d: Value, b: Boundary): (r: Option<Request>)
    requires multiset(order) == multiset(Declared(kind))
    ensures !Truthy(d) ==> r.Some? && r.value.errors != [] && r.value.errors[0] == EmptyMessage
  {
    Finish(kind, d, if d.Dict? then AssignFields(order, d.entries, b) else Assigned(map[], []))
  }

  /** The end of `__init__`: the empty-body message goes first, and the
      request-level check runs only if there is no message at all. */
  function Finish(kind: RequestKind, d: Value, a: Assigned): (r: Option<Request>)
    ensures !Truthy(d) ==> r.Some? && r.value.errors != [] && r.value.errors[0] == EmptyMessage
  {
    var start := if Truthy(d) then [] else [EmptyMessage];
    if start + a.errors != [] then Some(Request(a.stored, start + a.errors))
    else
      var extra :- RequestCheck(kind, a.stored);
      Some(Request(a.stored, extra))
  }

  lemma FinishOrderFree(kind: RequestKind, d: Value, a1: Assigned, a2: Assigned)
    requires a1.stored == a2.stored && multiset(a1.errors) == multiset(a2.errors)
    ensures Finish(kind, d, a1).Some? <==> Finish(kind, d, a2).Some?
    ensures Finish(kind, d, a1).Some? ==>
      && Finish(kind, d, a1).value.stored == Finish(kind, d, a2).value.stored
      && multiset(Finish(kind, d, a1).value.errors) == multiset(Finish(kind, d, a2).value.errors)
  {
    assert |a1.errors| == |multiset(a1.errors)| == |multiset(a2.errors)| == |a2.errors|;
    var start := if Truthy(d) then [] else [EmptyMessage];
    assert multiset(start + a1.errors) == multiset(start) + multiset(a1.errors);
    assert multiset(start + a2.errors) == multiset(start) + multiset(a2.errors);
  }

  lemma {:induction false} NoErrorsAllPass(order: seq<Field>, d: map<string, Value>, b: Boundary)
    requires AssignFields(order, d, b).errors == []
    ensures forall i :: 0 <= i < |order| ==> CheckField(order[i], Get(d, order[i].name), b).None?
  {
    if order != [] {
      var init := order[..|order| - 1];
      LastField(order, d, b);
      NoErrorsAllPass(init, d, b);
      forall i | 0 <= i < |init|
        ensures order[i] == init[i]
      {
      }
    }
  }

  /** Without errors, a field of the order holds the body's value. */
  lemma CleanFieldStored(order: seq<Field>, d: map<string, Value>, b: Boundary, f: Field)
    requires f in order && AssignFields(order, d, b).errors == []
    ensures f.name in AssignFields(order, d, b).stored
    ensures AssignFields(order, d, b).stored[f.name] == Get(d, f.name)
  {
    NoErrorsAllPass(order, d, b);
    AssignedStored(order, d, b);
    var j :| 0 <= j < |order| && order[j] == f;
    assert Accepted(order, f.name, d, b);
  }

  lemma CleanFieldsStored(kind: RequestKind, order: seq<Field>, d: map<string, Value>, b: Boundary)
    requires multiset(order) == multiset(Declared(kind))
    requires AssignFields(order, d, b).errors == []
    ensures forall i :: 0 <= i < |Declared(kind)| ==>
      Declared(kind)[i].name in AssignFields(order, d, b).stored
      && AssignFields(order, d, b).stored[Declared(kind)[i].name] == Get(d, Declared(kind)[i].name)
  {
    var fs := Declared(kind);
    forall i | 0 <= i < |fs|
      ensures fs[i].name in AssignFields(order, d, b).stored
      ensures AssignFields(order, d, b).stored[fs[i].name] == Get(d, fs[i].name)
    {
      assert fs[i] in multiset(order);
      CleanFieldStored(order, d, b, fs[i]);
    }
  }

  /** The request-level check runs only when no field failed and the body
      was non-empty; otherwise the errors are the empty-body message, if
      any, followed by the fields' messages. */
  lemma CheckOnlyWhenClean(kind: RequestKind, order: seq<Field>, d: Value, b: Boundary)
    requires multiset(order) == multiset(Declared(kind))
    ensures var fieldErrors := if d.Dict? then AssignFields(order, d.entries, b).errors else [];
      var start := if Truthy(d) then [] else [EmptyMessage];
      start + fieldErrors != [] ==> Construct(kind, order, d, b) == Some(Request(
        if d.Dict? then AssignFields(order, d.entries, b).stored else map[], start + fieldErrors))
  {
  }

  /** Two maps that agree on the six online-scoring fields agree on the
      pair rule. */
  lemma PairFilledAgree(s1: map<string, Value>, s2: map<string, Value>)
    requires Get(s1, "first_name") == Get(s2, "first_name") && Get(s1, "last_name") == Get(s2, "last_name")
    requires Get(s1, "email") == Get(s2, "email") && Get(s1, "phone") == Get(s2, "phone")
    requires Get(s1, "birthday") == Get(s2, "birthday") && Get(s1, "gender") == Get(s2, "gender")
    ensures PairFilled(s1) <==> PairFilled(s2)
  {
  }

  /** The end of construction for online scoring, once every field is
      stored without error: the pair rule alone decides. */
  lemma OnlineFinish(d: Value, a: Assigned)
    requires Truthy(d) && a.errors == []
    requires "first_name" in a.stored && "last_name" in a.stored && "email" in a.stored
    requires "phone" in a.stored && "birthday" in a.stored && "gender" in a.stored
    ensures Finish(OnlineScoreReq, d, a).Some?
    ensures Finish(OnlineScoreReq, d, a).value.errors == [] <==> PairFilled(a.stored)
  {
    assert [] + a.errors == [];
  }

  /** For a non-empty body whose fields all pass, online scoring fails
      exactly on the pair rule, read on the body's values. */
  lemma OnlineScorePairRule(order: seq<Field>, d: map<string, Value>, b: Boundary)
    requires multiset(order) == multiset(Declared(OnlineScoreReq))
    requires d != map[] && AssignFields(order, d, b).errors == []
    ensures Construct(OnlineScoreReq, order, Dict(d), b).Some?
    ensures Construct(OnlineScoreReq, order, Dict(d), b).value.errors == [] <==> PairFilled(d)
  {
    var a := AssignFields(order, d, b);
    var fs := Declared(OnlineScoreReq);
    assert fs[0] in multiset(order) && fs[1] in multiset(order) && fs[2] in multiset(order);
    assert fs[3] in multiset(order) && fs[4] in multiset(order) && fs[5] in multiset(order);
    CleanFieldStored(order, d, b, fs[0]);
    CleanFieldStored(order, d, b, fs[1]);
    CleanFieldStored(order, d, b, fs[2]);
    CleanFieldStored(order, d, b, fs[3]);
    CleanFieldStored(order, d, b, fs[4]);
    CleanFieldStored(order, d, b, fs[5]);
    PairFilledAgree(a.stored, d);
    OnlineFinish(Dict(d), a);
  }

  /** A gender of 0 fills the gender/birthday pair: the rule tests
      `is not None`, not truthiness. */
  lemma GenderZeroFillsPair(stored: map<string, Value>)
    requires Get(stored, "gender") == Int(0) && Truthy(Get(stored, "birthday"))
    ensures PairFilled(stored)
  {
  }

  /** The request is built the same whatever the order of the field names,
      up to the order of its messages. */
  lemma ConstructOrderFree(kind: RequestKind, o1: seq<Field>, o2: seq<Field>, d: Value, b: Boundary)
    requires multiset(o1) == multiset(Declared(kind)) && multiset(o2) == multiset(Declared(kind))
    ensures Construct(kind, o1, d, b).Some? <==> Construct(kind, o2, d, b).Some?
    ensures Construct(kind, o1, d, b).Some? ==>
      && Construct(kind, o1, d, b).value.stored == Construct(kind, o2, d, b).value.stored
      && multiset(Construct(kind, o1, d, b).value.errors) == multiset(Construct(kind, o2, d, b).value.errors)
  {
    if d.Dict? {
      var a1, a2 := AssignFields(o1, d.entries, b), AssignFields(o2, d.entries, b);
      AssignErrorsOrderFree(o1, o2, d.entries, b);
      AssignStoredOrderFree(o1, o2, d.entries, b);
      FinishOrderFree(kind, d, a1, a2);
      assert Construct(kind, o1, d, b) == Finish(kind, d, a1);
      assert Construct(kind, o2, d, b) == Finish(kind, d, a2);
    }
  }

  /** `has_attrs`: the field names, in iteration order, whose stored value
      is not `None`. */
  function HasAttrs(order: seq<Field>, stored: map<string, Value>): (r: seq<string>)
    ensures |r| <= |order|
    ensures forall x :: x in r <==> exists i :: 0 <= i < |order| && order[i].name == x && Get(stored, x) != Null
  {
    if order == [] then []
    else
      var rest := HasAttrs(order[1..], stored);
      assert forall i :: 0 <= i < |order[1..]| ==> order[1..][i] == order[i + 1];
      if Get(stored, order[0].name) != Null then [order[0].name] + rest else rest
  }

  /** On a request without errors, `has_attrs` names exactly the declared
      fields the body gave a value other than `None`. */
  lemma HasAttrsOfCleanRequest(kind: RequestKind, order: seq<Field>, d: map<string, Value>, b: Boundary, x: string)
    requires multiset(order) == multiset(Declared(kind))
    requires AssignFields(order, d, b).errors == []
    ensures x in HasAttrs(order, AssignFields(order, d, b).stored) <==>
      (exists i :: 0 <= i < |order| && order[i].name == x) && Get(d, x) != Null
  {
    AssignedStored(order, d, b);
    NoErrorsAllPass(order, d, b);
    var stored := AssignFields(order, d, b).stored;
    if exists i :: 0 <= i < |order| && order[i].name == x {
      var i :| 0 <= i < |order| && order[i].name == x;
      assert Accepted(order, x, d, b);
    }
  }

  /** `is_admin` (`None` when `login` was never stored). */
  function IsAdmin(stored: map<string, Value>): (r: Option<bool>)
    ensures r.Some? <==> "login" in stored
    ensures r == Some(true) <==> Get(stored, "login") == Str(AdminLogin)
  {
    var login :- Attr(stored, "login");
    Some(login == Str(AdminLogin))
  }

  /** `check_auth`, with `sha512(...).hexdigest()` as `digest` and
      `datetime.now().strftime("%Y%m%d%H")` as `hour`.  `None` when it
      raises: an attribute never stored, or `account + login` on values
      that are not both strings. */
  function CheckAuth(stored: map<string, Value>, digest: string -> string, hour: string): (r: Option<bool>)
  {
    var admin :- IsAdmin(stored);
    if admin then
      var token :- Attr(stored, "token");
      Some(token == Str(digest(hour + AdminSalt)))
    else
      var account :- Attr(stored, "account");
      var login := stored["login"];
      if account == Null || login == Null then Some(false)
      else if !(account.Str? && login.Str?) then None
      else
        var token :- Attr(stored, "token");
        Some(token == Str(digest(account.s + login.s + Salt)))
  }

  /** A user who is not the administrator and lacks an account or a login
      is refused without looking at the token. */
  lemma AuthNeedsAccountAndLogin(stored: map<string, Value>, digest: string -> string, hour: string)
    requires "login" in stored && "account" in stored && stored["login"] != Str(AdminLogin)
    requires stored["account"] == Null || stored["login"] == Null
    ensures CheckAuth(stored, digest, hour) == Some(false)
  {
  }

  /** The administrator is accepted exactly when the token is the digest of
      the hour stamp and the administrator salt. */
  lemma AuthAdmin(stored: map<string, Value>, digest: string -> string, hour: string)
    requires "token" in stored && Get(stored, "login") == Str(AdminLogin)
    ensures CheckAuth(stored, digest, hour) == Some(stored["token"] == Str(digest(hour + "42")))
  {
  }

  /** Any other user is accepted exactly when the token is the digest of
      account, login and salt. */
  lemma AuthUser(stored: map<string, Value>, account: string, login: string, digest: string -> string, hour: string)
    requires "token" in stored && login != AdminLogin
    requires Get(stored, "account") == Str(account) && Get(stored, "login") == Str(login)
    ensures CheckAuth(stored, digest, hour) == Some(stored["token"] == Str(digest(account + login + "Otus")))
  {
  }

  /** What `method_handler` answers with. */
  datatype Payload =
    | WrongRequest
    | ErrorList(errors: seq<string>)
    | Text(text: string)
    | Response(value: Value)

  datatype Reply = Reply(payload: Payload, code: int)

  const Methods: set<string> := {"online_score", "clients_interests"}

  /** `method_handler`.  `handler` stands for the method functions it
      dispatches to (`None` when one raises); `order` is the iteration
      order of the method request's field names.  Every exception inside
      the `try` becomes the "Wrong request" reply. */
  function MethodHandler(request: map<string, Value>, order: seq<Field>, b: Boundary,
                         digest: string -> string, hour: string,
                         handler: (string, map<string, Value>) -> Option<Reply>): (r: Reply)
    requires multiset(order) == multiset(Declared(MethodReq))
    ensures r.code != InvalidRequest && r.code != Forbidden ==>
      exists m :: m in Methods && exists stored :: handler(m, stored) == Some(r)
  {
    var body := Get(request, "body");
    if !Truthy(body) then Reply(WrongRequest, InvalidRequest)
    else match Construct(MethodReq, order, body, b)
      case None => Reply(WrongRequest, InvalidRequest)
      case Some(req) =>
        if req.errors != [] then Reply(ErrorList(req.errors), InvalidRequest)
        else match CheckAuth(req.stored, digest, hour)
          case None => Reply(WrongRequest, InvalidRequest)
          case Some(false) => Reply(Text("Not authorized"), Forbidden)
          case Some(true) =>
            match Attr(req.stored, "method")
            case None => Reply(WrongRequest, InvalidRequest)
            case Some(m) =>
              if !(m.Str? && m.s in Methods) then Reply(WrongRequest, InvalidRequest)
              else match handler(m.s, req.stored)
                case None => Reply(WrongRequest, InvalidRequest)
                case Some(reply) => reply
  }

  /** An empty or missing body is a wrong request. */
  lemma EmptyBodyIsWrong(request: map<string, Value>, order: seq<Field>, b: Boundary,
                         digest: string -> string, hour: string,
                         handler: (string, map<string, Value>) -> Option<Reply>)
    requires multiset(order) == multiset(Declared(MethodReq))
    requires !Truthy(Get(request, "body"))
    ensures MethodHandler(request, order, b, digest, hour, handler) == Reply(WrongRequest, 422)
  {
  }

  /** Field errors of the method request are answered with their list and
      422, before authentication is looked at. */
  lemma FieldErrorsAnswered(request: map<string, Value>, order: seq<Field>, b: Boundary,
                            digest: string -> string, hour: string,
                            handler: (string, map<string, Value>) -> Option<Reply>)
    requires multiset(order) == multiset(Declared(MethodReq))
    requires Truthy(Get(request, "body"))
    requires Construct(MethodReq, order, Get(request, "body"), b).Some?
    requires Construct(MethodReq, order, Get(request, "body"), b).value.errors != []
    ensures MethodHandler(request, order, b, digest, hour, handler)
         == Reply(ErrorList(Construct(MethodReq, order, Get(request, "body"), b).value.errors), 422)
  {
  }

  /** "Not authorized" (403) comes only from a request without errors whose
      authentication failed. */
  lemma ForbiddenMeansAuthFailed(request: map<string, Value>, order: seq<Field>, b: Boundary,
                                 digest: string -> string, hour: string,
                                 handler: (string, map<string, Value>) -> Option<Reply>)
    requires multiset(order) == multiset(Declared(MethodReq))
    requires MethodHandler(request, order, b, digest, hour, handler) == Reply(Text("Not authorized"), 403)
    requires forall m, stored :: handler(m, stored) != Some(Reply(Text("Not authorized"), 403))
    ensures Truthy(Get(request, "body"))
    ensures var c := Construct(MethodReq, order, Get(request, "body"), b);
      c.Some? && c.value.errors == [] && CheckAuth(c.value.stored, digest, hour) == Some(false)
  {
  }

  /** A method name outside the table is a wrong request. */
  lemma UnknownMethodIsWrong(request: map<string, Value>, order: seq<Field>, b: Boundary,
                             digest: string -> string, hour: string,
                             handler: (string, map<string, Value>) -> Option<Reply>)
    requires multiset(order) == multiset(Declared(MethodReq))
    requires Truthy(Get(request, "body"))
    requires var c := Construct(MethodReq, order, Get(request, "body"), b);
      c.Some? && c.value.errors == [] && CheckAuth(c.value.stored, digest, hour) == Some(true)
      && !(Get(c.value.stored, "method").Str? && Get(c.value.stored, "method").s in Methods)
    ensures MethodHandler(request, order, b, digest, hour, handler) == Reply(WrongRequest, 422)
  {
  }

  /** A request without field errors whose authentication fails is answered
      "Not authorized" with 403, whatever the method. */
  lemma AuthFailedForbidden(request: map<string, Value>, order: seq<Field>, b: Boundary,
                            digest: string -> string, hour: string,
                            handler: (string, map<string, Value>) -> Option<Reply>)
    requires multiset(order) == multiset(Declared(MethodReq))
    requires Truthy(Get(request, "body"))
    requires var c := Construct(MethodReq, order, Get(request, "body"), b);
      c.Some? && c.value.errors == [] && CheckAuth(c.value.stored, digest, hour) == Some(false)
    ensures MethodHandler(request, order, b, digest, hour, handler) == Reply(Text("Not authorized"), 403)
  {
  }

  /** Every exception raised on the way is caught and answered as a wrong
      request with 422: a body the request class cannot take apart, an
      authentication check that raises, and a known method whose handler
      raises. */
  lemma RaiseIsWrong(request: map<string, Value>, order: seq<Field>, b: Boundary,
                     digest: string -> string, hour: string,
                     handler: (string, map<string, Value>) -> Option<Reply>)
    requires multiset(order) == multiset(Declared(MethodReq))
    requires Truthy(Get(request, "body"))
    requires var c := Construct(MethodReq, order, Get(request, "body"), b);
      || c.None?
      || (c.value.errors == [] && CheckAuth(c.value.stored, digest, hour).None?)
      || (&& c.value.errors == [] && CheckAuth(c.value.stored, digest, hour) == Some(true)
          && Get(c.value.stored, "method").Str? && Get(c.value.stored, "method").s in Methods
          && handler(Get(c.value.stored, "method").s, c.value.stored).None?)
    ensures MethodHandler(request, order, b, digest, hour, handler) == Reply(WrongRequest, 422)
  {
  }

  /** An authenticated request for a known method gets its handler's reply
      unchanged. */
  lemma DispatchAnswered(request: map<string, Value>, order: seq<Field>, b: Boundary,
                         digest: string -> string, hour: string,
                         handler: (string, map<string, Value>) -> Option<Reply>)
    requires multiset(order) == multiset(Declared(MethodReq))
    requires Truthy(Get(request, "body"))
    requires var c := Construct(MethodReq, order, Get(request, "body"), b);
      && c.Some? && c.value.errors == [] && CheckAuth(c.value.stored, digest, hour) == Some(true)
      && Get(c.value.stored, "method").Str? && Get(c.value.stored, "method").s in Methods
      && handler(Get(c.value.stored, "method").s, c.value.stored).Some?
    ensures var c := Construct(MethodReq, order, Get(request, "body"), b);
      MethodHandler(request, order, b, digest, hour, handler)
        == handler(Get(c.value.stored, "method").s, c.value.stored).value
  {
  }
}
