/** The request validation of the second scoring API (`hw_04`): a field
    appends every problem it finds instead of raising on the first, a
    request concatenates its fields' lists in declaration order, and
    `validate` joins a non-empty list into one `ValueError`. */
module TestingApi {
  import opened Wrappers
  import opened PyValue
  import opened FieldRules
  import ScoringApi

  /** One entry of a field's error list. */
  datatype Complaint = Presented | EmptyValue | Bad(problem: Problem)

  function ComplaintMessage(name: string, c: Complaint): string {
    match c
    case Presented => "Field " + name + " must be presented in request"
    case EmptyValue => "Field " + name + " can't be empty."
    case Bad(p) => ProblemMessage(name, p)
  }

  /** `GeneralField.check`: every test runs and appends; "empty" is any
      false value.  `Err` when `strptime` raises inside `check_value`, which
      ends the whole check. */
  function CheckField(f: Field, v: Value, b: Boundary): (r: Result<seq<Complaint>, string>)
    ensures r.Err? ==> Truthy(v) && f.kind == BirthDay
    ensures r.Ok? ==> (Presented in r.value <==> f.required && v == Null)
    ensures r.Ok? ==> (EmptyValue in r.value <==> !f.nullable && !Truthy(v))
    ensures r.Ok? ==> ((exists p :: Bad(p) in r.value) ==> Truthy(v))
    ensures r.Ok? ==> |r.value| <= 2
  {
    var presented := if f.required && v == Null then [Presented] else [];
    var empty := if !f.nullable && !Truthy(v) then [EmptyValue] else [];
    if Truthy(v) then
      match CheckValue(f.kind, v, b)
      case Pass => Ok(presented + empty)
      case Reject(p) => Ok(presented + empty + [Bad(p)])
      case Raise(m) => Err(m)
    else Ok(presented + empty)
  }

  /** A required, non-nullable field given `None` gets both messages,
      "presented" first. */
  lemma MissingRequiredField(f: Field, b: Boundary)
    requires f.required && !f.nullable
    ensures CheckField(f, Null, b) == Ok([Presented, EmptyValue])
  {
    assert [Presented] + [EmptyValue] == [Presented, EmptyValue];
  }

  /** Unlike the first version, `0` is empty here. */
  lemma ZeroIsEmpty(f: Field, b: Boundary)
    requires !f.nullable
    ensures CheckField(f, Int(0), b) == Ok([EmptyValue])
  {
    assert [] + [EmptyValue] == [EmptyValue];
  }

  /** The two versions agree wherever their notions of "empty" agree: the
      first version's single error is the head of the second's list, and
      a `strptime` failure is reported by the first and raised by the
      second. */
  lemma VersionsAgree(f: Field, v: Value, b: Boundary)
    requires f.nullable || Truthy(v) || IsEmptyLiteral(v)
    ensures ScoringApi.CheckField(f, v, b).None? <==> CheckField(f, v, b) == Ok([])
    ensures ScoringApi.CheckField(f, v, b).Some? && CheckField(f, v, b).Ok? ==>
      CheckField(f, v, b).value != []
      && ScoringApi.FieldErrorMessage(f.name, ScoringApi.CheckField(f, v, b).value)
         == ComplaintMessage(f.name, CheckField(f, v, b).value[0])
    ensures CheckField(f, v, b).Err? ==>
      ScoringApi.CheckField(f, v, b) == Some(ScoringApi.Invalid(CheckField(f, v, b).error))
  {
    FalsyValues(v);
  }

  /** The messages of one field. */
  function FieldMessages(f: Field, v: Value, b: Boundary): Result<seq<string>, string> {
    var cs :- CheckField(f, v, b);
    Ok(seq(|cs|, i requires 0 <= i < |cs| => ComplaintMessage(f.name, cs[i])))
  }

  /** Checking one field against the request's values. */
  function Checker(values: map<string, Value>, b: Boundary): Field -> Result<seq<string>, string> {
    (f: Field) => FieldMessages(f, Get(values, f.name), b)
  }

  /** `GeneralRequest.check`: the fields' lists concatenated in declaration
      order; the first exception ends it. */
  function CheckAll(fields: seq<Field>, check: Field -> Result<seq<string>, string>): Result<seq<string>, string> {
    if fields == [] then Ok([])
    else
      var before :- CheckAll(fields[..|fields| - 1], check);
      var own :- check(fields[|fields| - 1]);
      Ok(before + own)
  }

  function CheckRequest(fields: seq<Field>, values: map<string, Value>, b: Boundary): Result<seq<string>, string> {
    CheckAll(fields, Checker(values, b))
  }

  /** Checking two runs of fields concatenates their lists, in order. */
  lemma {:induction false} CheckAllAppend(f1: seq<Field>, f2: seq<Field>, check: Field -> Result<seq<string>, string>)
    requires CheckAll(f1, check).Ok? && CheckAll(f2, check).Ok?
    ensures CheckAll(f1 + f2, check) == Ok(CheckAll(f1, check).value + CheckAll(f2, check).value)
    decreases |f2|
  {
    if f2 == [] {
      assert f1 + f2 == f1;
      assert CheckAll(f1, check).value + [] == CheckAll(f1, check).value;
    } else {
      var init, f := f2[..|f2| - 1], f2[|f2| - 1];
      assert (f1 + f2)[..|f1 + f2| - 1] == f1 + init;
      assert (f1 + f2)[|f1 + f2| - 1] == f;
      CheckAllAppend(f1, init, check);
      var own := check(f).value;
      var a, c := CheckAll(f1, check).value, CheckAll(init, check).value;
      assert CheckAll(f1 + f2, check) == Ok((a + c) + own);
      assert (a + c) + own == a + (c + own);
    }
  }

  /** The check raises exactly when some field raises. */
  lemma {:induction false} CheckAllRaises(fields: seq<Field>, check: Field -> Result<seq<string>, string>)
    ensures CheckAll(fields, check).Err? <==>
      exists i :: 0 <= i < |fields| && check(fields[i]).Err?
  {
    if fields != [] {
      var init := fields[..|fields| - 1];
      CheckAllRaises(init, check);
      if exists i :: 0 <= i < |init| && check(init[i]).Err? {
        var i :| 0 <= i < |init| && check(init[i]).Err?;
        assert fields[i] == init[i];
      }
      if exists i :: 0 <= i < |fields| && check(fields[i]).Err? {
        var i :| 0 <= i < |fields| && check(fields[i]).Err?;
        if i < |init| {
          assert fields[i] == init[i];
        }
      }
    }
  }

  /** Without exceptions, the messages of a field `f` declared between the
      fields `pre` and `post` appear in the request's list as one contiguous
      run, after those of `pre` and before those of `post`. */
  lemma FieldListIncluded(pre: seq<Field>, f: Field, post: seq<Field>, check: Field -> Result<seq<string>, string>)
    requires CheckAll(pre + [f] + post, check).Ok?
    ensures check(f).Ok? && CheckAll(pre, check).Ok? && CheckAll(post, check).Ok?
    ensures CheckAll(pre + [f] + post, check).value
      == CheckAll(pre, check).value + check(f).value + CheckAll(post, check).value
  {
    var fields := pre + [f] + post;
    NoneRaises(fields, pre, check);
    NoneRaises(fields, [f], check);
    assert forall j :: 0 <= j < |post| ==> post[j] == fields[|pre| + 1 + j];
    NoneRaises(fields, post, check);
    CheckAllSingle(f, check);
    CheckAllAppend(pre, [f], check);
    CheckAllAppend(pre + [f], post, check);
  }

  /** One field alone yields its own list. */
  lemma CheckAllSingle(f: Field, check: Field -> Result<seq<string>, string>)
    ensures CheckAll([f], check).Ok? <==> check(f).Ok?
    ensures check(f).Ok? ==> CheckAll([f], check).value == check(f).value
  {
    assert [f][..0] == [];
    if check(f).Ok? {
      assert [] + check(f).value == check(f).value;
    }
  }

  /** A run of fields taken from a check that raised nothing raises
      nothing itself. */
  lemma NoneRaises(fields: seq<Field>, part: seq<Field>, check: Field -> Result<seq<string>, string>)
    requires forall j :: 0 <= j < |part| ==> part[j] in fields
    requires CheckAll(fields, check).Ok?
    ensures CheckAll(part, check).Ok?
  {
    CheckAllRaises(fields, check);
    CheckAllRaises(part, check);
  }

  /** `sep.join(xs)`. */
  function Join(xs: seq<string>, sep: string): (r: string)
    ensures xs == [] ==> r == []
  {
    if xs == [] then []
    else if |xs| == 1 then xs[0]
    else Join(xs[..|xs| - 1], sep) + sep + xs[|xs| - 1]
  }

  /** `x` occurs in `t` starting at position `k`. */
  predicate At(t: string, x: string, k: int) {
    0 <= k <= |t| - |x| && t[k..k + |x|] == x
  }

  /** Every message appears, whole, in the joined text. */
  lemma {:induction false} JoinContains(xs: seq<string>, sep: string, i: nat)
    requires i < |xs|
    ensures exists k :: At(Join(xs, sep), xs[i], k)
    decreases |xs|
  {
    var j := Join(xs, sep);
    if |xs| == 1 {
      assert At(j, xs[i], 0);
    } else if i == |xs| - 1 {
      var k := |j| - |xs[i]|;
      assert j[k..k + |xs[i]|] == xs[i];
      assert At(j, xs[i], k);
    } else {
      var init := xs[..|xs| - 1];
      JoinContains(init, sep, i);
      var k :| At(Join(init, sep), init[i], k);
      assert j[k..k + |xs[i]|] == Join(init, sep)[k..k + |xs[i]|];
      assert At(j, xs[i], k);
    }
  }

  /** The joined text has every message plus one separator between each
      pair. */
  function TotalLength(xs: seq<string>): nat {
    if xs == [] then 0 else TotalLength(xs[..|xs| - 1]) + |xs[|xs| - 1]|
  }

  lemma {:induction false} JoinLength(xs: seq<string>, sep: string)
    requires xs != []
    ensures |Join(xs, sep)| == TotalLength(xs) + (|xs| - 1) * |sep|
  {
    if |xs| > 1 {
      JoinLength(xs[..|xs| - 1], sep);
    } else {
      assert xs[..0] == [];
    }
  }

  /** `validate`: raises `ValueError` with the messages joined by single
      spaces, exactly when there are messages. */
  function Validate(errors: seq<string>): (r: Option<string>)
    ensures r.None? <==> errors == []
  {
    if errors == [] then None else Some(Join(errors, " "))
  }

  /** The raised message names every error of the list. */
  lemma ValidateMentionsEach(errors: seq<string>, i: nat)
    requires i < |errors|
    ensures Validate(errors).Some?
    ensures exists k :: At(Validate(errors).value, errors[i], k)
  {
    JoinContains(errors, " ", i);
  }

  /** The values the request class holds: field values live on the class
      and persist from one request to the next. */
  type FieldValues = map<string, Value>

  /** Before any request, every field holds `None`. */
  function InitialValues(fields: seq<Field>): (m: FieldValues)
    ensures forall i :: 0 <= i < |fields| ==> fields[i].name in m && m[fields[i].name] == Null
  {
    map i | 0 <= i < |fields| :: fields[i].name := Null
  }

  predicate Declares(fields: seq<Field>, k: string) {
    exists i :: 0 <= i < |fields| && fields[i].name == k
  }

  /** `GeneralRequest.__init__(d)`: each key of the body sets its field's
      value; a key that names no field (or a body that is not a dict)
      raises, shown as `None`. */
  function Construct(fields: seq<Field>, values: FieldValues, d: Value): (r: Option<FieldValues>)
    ensures r.Some? <==> d.Dict? && forall k :: k in d.entries ==> Declares(fields, k)
  {
    if d.Dict? && forall k :: k in d.entries ==> Declares(fields, k) then Some(values + d.entries)
    else None
  }

  /** A field the body does not mention keeps the value the previous
      request left in it. */
  lemma ValuesPersist(fields: seq<Field>, values: FieldValues, d: Value, k: string)
    requires Construct(fields, values, d).Some?
    ensures k in d.entries ==> Get(Construct(fields, values, d).value, k) == d.entries[k]
    ensures k !in d.entries ==> Get(Construct(fields, values, d).value, k) == Get(values, k)
  {
  }

  /** `is_admin`: the login field compares equal to "admin" only when its
      value is that string. */
  predicate IsAdmin(values: FieldValues) {
    Get(values, "login") == Str(ScoringApi.AdminLogin)
  }

  /** Both versions agree on who the administrator is, once `login` holds a
      value: only the exact string "admin" qualifies, neither `None` nor a
      non-string. */
  lemma IsAdminAgrees(values: FieldValues)
    requires "login" in values
    ensures ScoringApi.IsAdmin(values) == Some(IsAdmin(values))
    ensures IsAdmin(values) <==> values["login"].Str? && values["login"].s == "admin"
  {
  }

  /** Exceptions the method functions may raise after validation. */
  datatype Raised = ValueError(message: string) | OtherError

  datatype Payload = WrongRequest | Message(text: string) | Response(value: Value)

  datatype Reply = Reply(payload: Payload, code: int)

  /** `method_handler`.  `rest` stands for authentication and dispatch to
      the method functions; constructing the method request sits outside
      the `try`, so its failure is an uncaught exception (`None`). */
  function MethodHandler(request: map<string, Value>, values: FieldValues, b: Boundary,
                         rest: FieldValues -> Result<Reply, Raised>): (r: Option<Reply>)
    ensures r.Some? && r.value.payload.Message? && r.value.code == ScoringApi.InvalidRequest ==>
      !Truthy(Get(request, "body")) || Construct(ScoringApi.Declared(ScoringApi.MethodReq), values, Get(request, "body")).Some?
  {
    var body := Get(request, "body");
    if !Truthy(body) then Some(Reply(WrongRequest, ScoringApi.InvalidRequest))
    else
      var current :- Construct(ScoringApi.Declared(ScoringApi.MethodReq), values, body);
      match CheckRequest(ScoringApi.Declared(ScoringApi.MethodReq), current, b)
      case Err(m) => Some(Reply(Message(m), ScoringApi.InvalidRequest))
      case Ok(errors) =>
        match Validate(errors)
        case Some(m) => Some(Reply(Message(m), ScoringApi.InvalidRequest))
        case None =>
          match rest(current)
          case Ok(reply) => Some(reply)
          case Err(ValueError(m)) => Some(Reply(Message(m), ScoringApi.InvalidRequest))
          case Err(OtherError) => Some(Reply(WrongRequest, ScoringApi.InvalidRequest))
  }

  /** Validation errors of the method request are answered with 422 and
      all the messages, joined by spaces. */
  lemma ValidationErrorsAnswered(request: map<string, Value>, values: FieldValues, b: Boundary,
                                 rest: FieldValues -> Result<Reply, Raised>)
    requires Truthy(Get(request, "body"))
    requires Construct(ScoringApi.Declared(ScoringApi.MethodReq), values, Get(request, "body")).Some?
    requires var current := Construct(ScoringApi.Declared(ScoringApi.MethodReq), values, Get(request, "body")).value;
      CheckRequest(ScoringApi.Declared(ScoringApi.MethodReq), current, b).Ok?
      && CheckRequest(ScoringApi.Declared(ScoringApi.MethodReq), current, b).value != []
    ensures var current := Construct(ScoringApi.Declared(ScoringApi.MethodReq), values, Get(request, "body")).value;
      MethodHandler(request, values, b, rest)
      == Some(Reply(Message(Join(CheckRequest(ScoringApi.Declared(ScoringApi.MethodReq), current, b).value, " ")), 422))
  {
  }

  /** A body with a key that names no field of the method request is not
      handled at all: the exception escapes. */
  lemma UnknownKeyEscapes(request: map<string, Value>, values: FieldValues, b: Boundary,
                          rest: FieldValues -> Result<Reply, Raised>, k: string)
    requires Get(request, "body").Dict? && k in Get(request, "body").entries
    requires k !in {"account", "login", "token", "arguments", "method"}
    ensures MethodHandler(request, values, b, rest).None?
  {
    MethodFieldNames(k);
  }

  /** The method request declares exactly the fields `account`, `login`,
      `token`, `arguments` and `method`. */
  lemma MethodFieldNames(k: string)
    ensures Declares(ScoringApi.Declared(ScoringApi.MethodReq), k) <==> k in {"account", "login", "token", "arguments", "method"}
  {
    var fields := ScoringApi.Declared(ScoringApi.MethodReq);
    assert forall i :: 0 <= i < |fields| ==> fields[i].name in {"account", "login", "token", "arguments", "method"};
    if k in {"account", "login", "token", "arguments", "method"} {
      var i := if k == "account" then 0 else if k == "login" then 1 else if k == "token" then 2
        else if k == "arguments" then 3 else 4;
      assert fields[i].name == k;
    }
  }

  /** A `ValueError` raised after validation, by a method function
      validating its own arguments, is answered with its text and 422. */
  lemma ValueErrorAnswered(request: map<string, Value>, values: FieldValues, b: Boundary,
                           rest: FieldValues -> Result<Reply, Raised>, m: string)
    requires Truthy(Get(request, "body"))
    requires Construct(ScoringApi.Declared(ScoringApi.MethodReq), values, Get(request, "body")).Some?
    requires var current := Construct(ScoringApi.Declared(ScoringApi.MethodReq), values, Get(request, "body")).value;
      CheckRequest(ScoringApi.Declared(ScoringApi.MethodReq), current, b) == Ok([])
      && rest(current) == Err(ValueError(m))
    ensures MethodHandler(request, values, b, rest) == Some(Reply(Message(m), 422))
  {
  }
}
