/** Matching a MAP's query against the registered endpoints: the query built by
    src/core/json_builds.c, the clause language of src/common/json_filter.c, the search of
    src/core/endpoint.c, and the type tables of src/common/endpoint_base.c. */
module EndpointMatch {
  import opened CFormat
  import SchemaHash

  // ---------- Endpoint types ----------

  const EP_SRC := 1
  const EP_SNK := 2
  const EP_REQ := 3
  const EP_RESP := 4
  const EP_REQ_P := 5
  const EP_RESP_P := 6
  const EP_SS := 7
  const EP_RR := 8
  const EP_RR_P := 9
  const EP_STR_SRC := 10
  const EP_STR_SNK := 11

  predicate ValidType(t: int) {
    0 < t < 12
  }

  function TypeStr(t: int): Option<string> {
    if t == EP_SRC then Some("src") else if t == EP_SNK then Some("snk")
    else if t == EP_REQ then Some("req") else if t == EP_RESP then Some("resp")
    else if t == EP_REQ_P then Some("req+") else if t == EP_RESP_P then Some("resp+")
    else if t == EP_RR then Some("rr") else if t == EP_RR_P then Some("rr+")
    else if t == EP_SS then Some("ss")
    else if t == EP_STR_SRC then Some("str_src") else if t == EP_STR_SNK then Some("str_snk")
    else None
  }

  function MatchingStr(t: int): Option<string> {
    if t == EP_SRC then Some("snk") else if t == EP_SNK then Some("src")
    else if t == EP_REQ then Some("resp") else if t == EP_RESP then Some("req")
    else if t == EP_REQ_P then Some("resp+") else if t == EP_RESP_P then Some("req+")
    else if t == EP_RR then Some("rr") else if t == EP_RR_P then Some("rr+")
    else if t == EP_SS then Some("ss")
    else if t == EP_STR_SRC then Some("str_snk") else if t == EP_STR_SNK then Some("str_src")
    else None
  }

  function TypeInt(s: string): int {
    if s == "src" then EP_SRC else if s == "snk" then EP_SNK
    else if s == "req" then EP_REQ else if s == "resp" then EP_RESP
    else if s == "req+" then EP_REQ_P else if s == "resp+" then EP_RESP_P
    else if s == "rr" then EP_RR else if s == "rr+" then EP_RR_P
    else if s == "ss" then EP_SS
    else if s == "str_src" then EP_STR_SRC else if s == "str_snk" then EP_STR_SNK
    else 0
  }

  /** The type a peer must have: what the matching name is the name of. */
  function Dual(t: int): int
    requires ValidType(t)
  {
    TypeInt(MatchingStr(t).value)
  }

  predicate AnswersRequests(t: int) {
    t in {EP_REQ, EP_RESP, EP_REQ_P, EP_RESP_P, EP_RR, EP_RR_P}
  }

  /** The three tables fit together: names are one to one, and taking the matching type twice
      leads back. */
  lemma TypeTablesAgree(t: int, u: int)
    requires ValidType(t) && ValidType(u)
    ensures TypeInt(TypeStr(t).value) == t
    ensures ValidType(Dual(t)) && Dual(Dual(t)) == t
    ensures TypeStr(Dual(t)) == MatchingStr(t)
    ensures TypeStr(t) == TypeStr(u) <==> t == u
    ensures AnswersRequests(Dual(t)) <==> AnswersRequests(t)
  {
  }

  /** The numbers and the names of the types. */
  lemma TypesAreNamed(t: int, name: string)
    ensures TypeStr(t) == Some(name) <==>
            (t, name) in {(1, "src"), (2, "snk"), (3, "req"), (4, "resp"), (5, "req+"), (6, "resp+"),
                          (7, "ss"), (8, "rr"), (9, "rr+"), (10, "str_src"), (11, "str_snk")}
    ensures TypeInt(name) == if exists u :: TypeStr(u) == Some(name) then (var u :| TypeStr(u) == Some(name); u) else 0
  {
    var u := TypeInt(name);
    assert u != 0 ==> TypeStr(u) == Some(name);
  }

  /** The types that go together, pair by pair. */
  predicate Paired(t: int, u: int) {
    || (t, u) in {(EP_SRC, EP_SNK), (EP_SNK, EP_SRC), (EP_REQ, EP_RESP), (EP_RESP, EP_REQ)}
    || (t, u) in {(EP_REQ_P, EP_RESP_P), (EP_RESP_P, EP_REQ_P), (EP_STR_SRC, EP_STR_SNK), (EP_STR_SNK, EP_STR_SRC)}
    || (t, u) in {(EP_RR, EP_RR), (EP_RR_P, EP_RR_P), (EP_SS, EP_SS)}
  }

  /** A type's dual is the one it is paired with, and the kinds that answer requests are those with
      a request and a response end. */
  lemma DualIsPaired(t: int, u: int)
    requires ValidType(t)
    ensures u == Dual(t) <==> Paired(t, u)
    ensures AnswersRequests(t) <==> t in {EP_REQ, EP_RESP, EP_REQ_P, EP_RESP_P, EP_RR, EP_RR_P}
  {
  }

  // ---------- Endpoints ----------

  datatype Endpoint = Endpoint(id: string, name: Option<string>, description: Option<string>, epType: int,
                               msg: Option<string>, resp: Option<string>)

  function EndpointInit(name: Option<string>, description: Option<string>, t: int,
                        msg: Option<string>, resp: Option<string>, id: string): Option<Endpoint> {
    if t <= 0 || t >= 12 then None
    else if t != EP_STR_SRC && t != EP_STR_SNK && msg.None? then None
    else if AnswersRequests(t) && resp.None? then None
    else Some(Endpoint(id, name, description, t, msg, if AnswersRequests(t) then resp else None))
  }

  /** What endpoint_init accepts: a type from 1 to 11, a message schema except on streams, a
      response schema on the kinds that answer requests (which are numbered 3 to 6, 8 and 9); and
      what it keeps of it. */
  lemma InitAcceptsIff(name: Option<string>, description: Option<string>, t: int,
                       msg: Option<string>, resp: Option<string>, id: string)
    ensures var r := EndpointInit(name, description, t, msg, resp, id);
            && (r.Some? <==> 1 <= t <= 11 && (msg.Some? || t in {10, 11}) && (resp.Some? || t !in {3, 4, 5, 6, 8, 9}))
            && (r.Some? ==>
                  r.value == Endpoint(id, name, description, t, msg, if t in {3, 4, 5, 6, 8, 9} then resp else None))
  {
  }

  predicate NoSpace(s: string) {
    ' ' !in s
  }

  /** An endpoint as `endpoint_init` leaves it, its schema hashes free of spaces. */
  predicate WellMade(e: Endpoint) {
    && EndpointInit(e.name, e.description, e.epType, e.msg, e.resp, e.id) == Some(e)
    && (e.msg.Some? ==> NoSpace(e.msg.value)) && (e.resp.Some? ==> NoSpace(e.resp.value))
  }

  /** Whatever `endpoint_init` accepts carries both hashes when it answers requests, and no
      response hash otherwise. */
  lemma InitiatedAreWellMade(name: Option<string>, description: Option<string>, t: int,
                             msg: Option<string>, resp: Option<string>, id: string)
    requires EndpointInit(name, description, t, msg, resp, id).Some?
    requires (msg.Some? ==> NoSpace(msg.value)) && (resp.Some? ==> NoSpace(resp.value))
    ensures var e := EndpointInit(name, description, t, msg, resp, id).value;
            && WellMade(e) && (e.resp.Some? <==> AnswersRequests(t)) && (e.resp.Some? ==> e.msg.Some?)
  {
  }

  /** Hashes of schemas qualify. */
  lemma HashesHaveNoSpace(schema: string)
    ensures NoSpace(SchemaHash.HashOf(schema))
  {
    SchemaHash.HashFits(schema);
  }

  // ---------- JSON objects, as far as a clause looks into them ----------

  datatype JVal = JStr(s: string) | JNum(x: real) | JOther

  type Json = map<string, JVal>

  function SetStr(j: Json, prop: string, v: Option<string>): Json {
    if v.Some? then j[prop := JStr(v.value)] else j
  }

  /** ep_local_to_json; the component's metadata is merged over the endpoint's own keys. */
  function LocalToJson(e: Endpoint, metadata: Json): Json {
    var j := SetStr(map[], "ep_name", e.name);
    var j := SetStr(j, "ep_description", e.description);
    var j := SetStr(j, "ep_type", TypeStr(e.epType));
    var j := SetStr(j, "msg_hash", e.msg);
    var j := SetStr(j, "resp_hash", e.resp);
    j["com_modules" := JOther] + metadata
  }

  /** What stands where in an endpoint's document, and that nothing else does. */
  lemma DocumentOf(e: Endpoint, metadata: Json, prop: string)
    ensures var j := LocalToJson(e, metadata);
            && (prop in metadata ==> prop in j && j[prop] == metadata[prop])
            && (prop !in metadata ==>
                  && (prop in j <==> || (prop == "ep_name" && e.name.Some?)
                                     || (prop == "ep_description" && e.description.Some?)
                                     || (prop == "ep_type" && TypeStr(e.epType).Some?)
                                     || (prop == "msg_hash" && e.msg.Some?)
                                     || (prop == "resp_hash" && e.resp.Some?)
                                     || prop == "com_modules")
                  && (prop == "ep_name" && e.name.Some? ==> j[prop] == JStr(e.name.value))
                  && (prop == "ep_description" && e.description.Some? ==> j[prop] == JStr(e.description.value))
                  && (prop == "ep_type" && TypeStr(e.epType).Some? ==> j[prop] == JStr(TypeStr(e.epType).value))
                  && (prop == "msg_hash" && e.msg.Some? ==> j[prop] == JStr(e.msg.value))
                  && (prop == "resp_hash" && e.resp.Some? ==> j[prop] == JStr(e.resp.value))
                  && (prop == "com_modules" ==> j[prop] == JOther))
  {
  }

  predicate Disjoint(metadata: Json) {
    "ep_type" !in metadata && "msg_hash" !in metadata && "resp_hash" !in metadata
  }

  // ---------- Clauses ----------

  function SkipBlanks(s: string): string {
    if s != "" && s[0] == ' ' then SkipBlanks(s[1..]) else s
  }

  function UpToBlank(s: string): (r: string)
    ensures r <= s
  {
    if s == "" || s[0] == ' ' then "" else [s[0]] + UpToBlank(s[1..])
  }

  /** strtok with a blank as the only delimiter: the token and what is left for the next call. */
  function Token(s: string): Option<(string, string)> {
    var t := SkipBlanks(s);
    if t == "" then None
    else
      var w := UpToBlank(t);
      Some((w, if |w| < |t| then t[|w| + 1..] else ""))
  }

  datatype Path = Path(prop: string, sign: string, value: string, isString: bool)

  /** None where the source takes the length of a missing value. */
  function ParsePath(path: string): Option<Path> {
    var prop :- Token(path);
    var sign :- Token(prop.1);
    var value :- Token(sign.1);
    var v := value.0;
    if |v| >= 2 && v[0] == '\'' && v[|v| - 1] == '\'' then Some(Path(prop.0, sign.0, v[1..|v| - 1], true))
    else Some(Path(prop.0, sign.0, v, false))
  }

  /** Reading a number from the text of a clause is left to a parameter. */
  type NumberReader = string -> Option<real>

  function NumberIn(json: Json, prop: string): real {
    if prop in json && json[prop].JNum? then json[prop].x else -13.0
  }

  /** What a sign asks of a value that is less than, equal to or greater than the reference. */
  predicate Asked(sign: string, less: bool, equal: bool) {
    sign != "" && (
      if sign[0] == '=' then equal
      else if sign[0] == '>' then !less && !equal
      else if sign[0] == '<' then less
      else sign[0] == '!' && !equal)
  }

  /** None where the source compares a missing string or an unread number. Numbers are compared as
      the sign asks, strings for equality. */
  function HasPath(json: Json, p: Path, num: NumberReader): Option<bool> {
    if !p.isString then
      var ref :- num(p.value);
      var value := NumberIn(json, p.prop);
      Some(Asked(p.sign, value < ref, value == ref))
    else if p.prop in json && json[p.prop].JStr? then Some(json[p.prop].s == p.value)
    else None
  }

  function ValidateOne(json: Json, path: string, num: NumberReader): Option<bool> {
    var p :- ParsePath(path);
    HasPath(json, p, num)
  }

  /** The conjunction, left to right, stopping at the first clause that fails. */
  function Validate(json: Json, filters: seq<string>, num: NumberReader): Option<bool> {
    if filters == [] then Some(true)
    else
      var first :- ValidateOne(json, filters[0], num);
      if first then Validate(json, filters[1..], num) else Some(false)
  }

  method ValidateArray(json: Json, filters: seq<string>, num: NumberReader) returns (ok: Option<bool>)
    ensures ok == Validate(json, filters, num)
  {
    var i := 0;
    while i < |filters|
      invariant 0 <= i <= |filters|
      invariant Validate(json, filters, num) == Validate(json, filters[i..], num)
    {
      assert filters[i..][1..] == filters[i + 1..];
      var one := ValidateOne(json, filters[i], num);
      if one.None? { return None; }
      if !one.value { return Some(false); }
      i := i + 1;
    }
    ok := Some(true);
  }

  // ---------- The query ----------

  function SignedClause(prop: string, sign: string, v: string): string {
    prop + " " + sign + " '" + v + "'"
  }

  function StringClause(prop: string, v: string): string {
    SignedClause(prop, "=", v)
  }

  /** The clauses json_build_map appends to the caller's. */
  function OwnClauses(e: Endpoint): seq<string>
    requires ValidType(e.epType) && (e.resp.Some? ==> e.msg.Some?)
  {
    [StringClause("ep_type", MatchingStr(e.epType).value)] +
    if e.resp.Some? then [StringClause("msg_hash", e.msg.value), StringClause("resp_hash", e.resp.value)] else []
  }

  function BuildQuery(e: Endpoint, epQuery: seq<string>): seq<string>
    requires ValidType(e.epType) && (e.resp.Some? ==> e.msg.Some?)
  {
    epQuery + OwnClauses(e)
  }

  lemma {:induction false} UpToBlankStops(w: string, rest: string)
    requires NoSpace(w)
    ensures UpToBlank(w + " " + rest) == w && UpToBlank(w) == w
  {
    if w != "" {
      assert w[0] in w && forall c | c in w[1..] :: c in w;
      assert (w + " " + rest)[1..] == w[1..] + " " + rest;
      UpToBlankStops(w[1..], rest);
    }
  }

  lemma TokenBeforeBlank(w: string, rest: string)
    requires w != "" && NoSpace(w)
    ensures Token(w + " " + rest) == Some((w, rest))
    ensures Token(w) == Some((w, ""))
  {
    assert w[0] in w;
    UpToBlankStops(w, rest);
    assert (w + " " + rest)[|w| + 1..] == rest;
  }

  /** A clause printed for a string is read back as that property, that sign and that string. */
  lemma ClauseReadsBack(prop: string, sign: string, v: string)
    requires prop != "" && sign != "" && NoSpace(prop) && NoSpace(sign) && NoSpace(v)
    ensures ParsePath(SignedClause(prop, sign, v)) == Some(Path(prop, sign, v, true))
  {
    var quoted := "'" + v + "'";
    var tail := sign + " " + quoted;
    assert SignedClause(prop, sign, v) == prop + " " + tail;
    TokenBeforeBlank(prop, tail);
    TokenBeforeBlank(sign, quoted);
    TokenBeforeBlank(quoted, "");
    assert quoted[1..|quoted| - 1] == v;
  }

  // ---------- Numeric clauses ----------

  /** The text of a clause on a number. */
  function NumericClause(prop: string, sign: string, v: string): string {
    prop + " " + sign + " " + v
  }

  predicate Quoted(v: string) {
    |v| >= 2 && v[0] == '\'' && v[|v| - 1] == '\''
  }

  lemma NumericClauseReadsBack(prop: string, sign: string, v: string)
    requires prop != "" && sign != "" && v != "" && NoSpace(prop) && NoSpace(sign) && NoSpace(v) && !Quoted(v)
    ensures ParsePath(NumericClause(prop, sign, v)) == Some(Path(prop, sign, v, false))
  {
    ThreeTokens(prop, sign, v);
    ParseTokens(NumericClause(prop, sign, v), prop, sign, v);
  }

  predicate Tokens(path: string, prop: string, sign: string, v: string) {
    && Token(path).Some? && Token(path).value.0 == prop
    && var rest := Token(path).value.1;
       && Token(rest).Some? && Token(rest).value.0 == sign
       && var last := Token(rest).value.1;
          Token(last).Some? && Token(last).value.0 == v
  }

  lemma ThreeTokens(prop: string, sign: string, v: string)
    requires prop != "" && sign != "" && v != "" && NoSpace(prop) && NoSpace(sign) && NoSpace(v)
    ensures Tokens(NumericClause(prop, sign, v), prop, sign, v)
  {
    var tail := sign + " " + v;
    assert NumericClause(prop, sign, v) == prop + " " + tail;
    TokenBeforeBlank(prop, tail);
    TokenBeforeBlank(sign, v);
    TokenBeforeBlank(v, "");
  }

  lemma ParseTokens(path: string, prop: string, sign: string, v: string)
    requires Tokens(path, prop, sign, v) && !Quoted(v)
    ensures ParsePath(path) == Some(Path(prop, sign, v, false))
  {
  }

  /** The verdict of any clause text that parses as numeric: '=' asks for the number itself, '>' for
      a greater one, '<' for a smaller one, '!' for another, and any other sign accepts nothing. A
      property that is missing or no number counts as -13; a reference that is no number fails. */
  lemma NumericVerdict(json: Json, path: string, num: NumberReader)
    requires ParsePath(path).Some? && !ParsePath(path).value.isString
    ensures var p := ParsePath(path).value;
            var x := if p.prop in json && json[p.prop].JNum? then json[p.prop].x else -13.0;
            p.sign != "" &&
            match num(p.value)
            case None => ValidateOne(json, path, num) == None
            case Some(ref) =>
              && (p.sign[0] == '=' ==> ValidateOne(json, path, num) == Some(x == ref))
              && (p.sign[0] == '>' ==> ValidateOne(json, path, num) == Some(x > ref))
              && (p.sign[0] == '<' ==> ValidateOne(json, path, num) == Some(x < ref))
              && (p.sign[0] == '!' ==> ValidateOne(json, path, num) == Some(x != ref))
              && (p.sign[0] !in "=><!" ==> ValidateOne(json, path, num) == Some(false))
  {
    TokensAreNotEmpty(path);
    TokensAreNotEmpty(Token(path).value.1);
  }

  // ---------- The sign of a string clause ----------

  /** What a string clause asks of a document, by the order of strcmp. */
  predicate AskedOf(p: Path, value: string) {
    Asked(p.sign, LexLess(value, p.value), value == p.value)
  }

  predicate HasString(json: Json, prop: string) {
    prop in json && json[prop].JStr?
  }

  lemma {:induction false} LexIrreflexive(s: string)
    ensures !LexLess(s, s)
  {
    if s != "" { LexIrreflexive(s[1..]); }
  }

  /** On one document: with '=' the verdict is the one asked for, with '!' it is the opposite, with
      '<' or '>' it is right only for values strictly on the other side, and with anything else
      only for different values. */
  lemma StringVerdict(json: Json, p: Path, num: NumberReader)
    requires p.isString && p.sign != "" && HasString(json, p.prop)
    ensures var value := json[p.prop].s;
            HasPath(json, p, num) == Some(AskedOf(p, value)) <==>
              (if p.sign[0] == '=' then true
               else if p.sign[0] == '!' then false
               else if p.sign[0] == '>' then LexLess(value, p.value)
               else if p.sign[0] == '<' then value != p.value && !LexLess(value, p.value)
               else value != p.value)
  {
    LexIrreflexive(p.value);
  }

  /** The sign of a string clause is never looked at; so the verdict is the one the sign asks for
      on every document if and only if the sign starts with '='. */
  lemma StringClausesIgnoreTheSign(p: Path, num: NumberReader)
    requires p.isString && p.sign != ""
    ensures forall json: Json, sign: string :: HasPath(json, p.(sign := sign), num) == HasPath(json, p, num)
    ensures (forall json: Json | HasString(json, p.prop) :: HasPath(json, p, num) == Some(AskedOf(p, json[p.prop].s)))
            <==> p.sign[0] == '='
  {
    forall json: Json | HasString(json, p.prop)
      ensures p.sign[0] == '=' ==> HasPath(json, p, num) == Some(AskedOf(p, json[p.prop].s))
    {
      StringVerdict(json, p, num);
    }
    var equal: Json := map[p.prop := JStr(p.value)];
    StringVerdict(equal, p, num);
    LexIrreflexive(p.value);
    assert HasString(equal, p.prop) && equal[p.prop].s == p.value;
  }

  /** Every clause text that parses has a sign, so this decides all string clauses. */
  lemma StringClauseHonouredIff(path: string, num: NumberReader)
    requires ParsePath(path).Some? && ParsePath(path).value.isString
    ensures var p := ParsePath(path).value;
            && p.sign != ""
            && ((forall json: Json | HasString(json, p.prop) ::
                   ValidateOne(json, path, num) == Some(AskedOf(p, json[p.prop].s))) <==> p.sign[0] == '=')
  {
    var p := ParsePath(path).value;
    TokensAreNotEmpty(path);
    TokensAreNotEmpty(Token(path).value.1);
    StringClausesIgnoreTheSign(p, num);
    forall json: Json ensures ValidateOne(json, path, num) == HasPath(json, p, num) {
    }
  }

  lemma {:induction false} BlanksAreSkipped(s: string)
    ensures SkipBlanks(s) == "" || SkipBlanks(s)[0] != ' '
  {
    if s != "" && s[0] == ' ' { BlanksAreSkipped(s[1..]); }
  }

  lemma TokensAreNotEmpty(s: string)
    ensures Token(s).Some? ==> Token(s).value.0 != ""
  {
    BlanksAreSkipped(s);
  }

  /** The failing input: a clause that asks for a difference accepts an equal value. */
  lemma DifferenceAcceptsEqual(prop: string, v: string, num: NumberReader)
    requires prop != "" && NoSpace(prop) && NoSpace(v)
    ensures ValidateOne(map[prop := JStr(v)], SignedClause(prop, "!=", v), num) == Some(true)
    ensures !AskedOf(Path(prop, "!=", v, true), v)
  {
    ClauseReadsBack(prop, "!=", v);
  }

  /** A clause on the name accepts exactly the endpoints of that name; on an endpoint without one
      the source compares a missing string. */
  lemma NameClauseTests(e: Endpoint, metadata: Json, name: string, num: NumberReader)
    requires NoSpace(name) && "ep_name" !in metadata
    ensures ValidateOne(LocalToJson(e, metadata), StringClause("ep_name", name), num)
         == if e.name.Some? then Some(e.name.value == name) else None
  {
    ClauseReadsBack("ep_name", "=", name);
    DocumentOf(e, metadata, "ep_name");
  }

  lemma StringClauseTests(json: Json, prop: string, v: string, num: NumberReader)
    requires prop != "" && NoSpace(prop) && NoSpace(v) && prop in json && json[prop].JStr?
    ensures ValidateOne(json, StringClause(prop, v), num) == Some(json[prop].s == v)
  {
    ClauseReadsBack(prop, "=", v);
  }

  lemma {:induction false} ValidateConcat(json: Json, a: seq<string>, b: seq<string>, num: NumberReader)
    ensures Validate(json, a + b, num) ==
            match Validate(json, a, num) case None => None
            case Some(ok) => if ok then Validate(json, b, num) else Some(false)
  {
    if a == [] {
      assert a + b == b;
    } else {
      assert (a + b)[0] == a[0] && (a + b)[1..] == a[1..] + b;
      ValidateConcat(json, a[1..], b, num);
    }
  }

  /** Compatible endpoints: dual types and, where requests are answered, the same two schemas. */
  predicate Compatible(e: Endpoint, f: Endpoint)
    requires ValidType(e.epType)
  {
    f.epType == Dual(e.epType) && (AnswersRequests(e.epType) ==> f.msg == e.msg && f.resp == e.resp)
  }

  lemma TypeNamesHaveNoSpace(t: int)
    requires ValidType(t)
    ensures NoSpace(TypeStr(t).value) && NoSpace(MatchingStr(t).value) && |MatchingStr(t).value| <= 7
  {
  }

  lemma DocumentHasType(f: Endpoint, metadata: Json)
    requires ValidType(f.epType) && Disjoint(metadata)
    ensures var j := LocalToJson(f, metadata); "ep_type" in j && j["ep_type"] == JStr(TypeStr(f.epType).value)
  {
  }

  lemma TypeClauseTests(e: Endpoint, f: Endpoint, metadata: Json, num: NumberReader)
    requires WellMade(e) && WellMade(f) && Disjoint(metadata)
    ensures ValidateOne(LocalToJson(f, metadata), StringClause("ep_type", MatchingStr(e.epType).value), num)
         == Some(f.epType == Dual(e.epType))
  {
    TypeNamesHaveNoSpace(e.epType);
    TypeTablesAgree(e.epType, f.epType);
    TypeTablesAgree(Dual(e.epType), f.epType);
    DocumentHasType(f, metadata);
    StringClauseTests(LocalToJson(f, metadata), "ep_type", MatchingStr(e.epType).value, num);
  }

  lemma HashClausesTest(e: Endpoint, f: Endpoint, metadata: Json, num: NumberReader)
    requires WellMade(e) && WellMade(f) && Disjoint(metadata) && e.resp.Some? && f.epType == Dual(e.epType)
    ensures f.msg.Some? && f.resp.Some?
    ensures ValidateOne(LocalToJson(f, metadata), StringClause("msg_hash", e.msg.value), num) == Some(f.msg == e.msg)
    ensures ValidateOne(LocalToJson(f, metadata), StringClause("resp_hash", e.resp.value), num)
       == Some(f.resp == e.resp)
  {
    TypeTablesAgree(e.epType, f.epType);
    var j := LocalToJson(f, metadata);
    assert j["msg_hash"] == JStr(f.msg.value) && j["resp_hash"] == JStr(f.resp.value);
    StringClauseTests(j, "msg_hash", e.msg.value, num);
    StringClauseTests(j, "resp_hash", e.resp.value, num);
  }

  /** The generated clauses can be evaluated on every registered endpoint, because the type clause
      stops the evaluation before a hash that is not there; and they hold of exactly the
      compatible ones. */
  lemma OwnClausesDecideCompatibility(e: Endpoint, f: Endpoint, metadata: Json, num: NumberReader)
    requires WellMade(e) && WellMade(f) && Disjoint(metadata)
    ensures Validate(LocalToJson(f, metadata), OwnClauses(e), num) == Some(Compatible(e, f))
  {
    var j := LocalToJson(f, metadata);
    TypeClauseTests(e, f, metadata, num);
    var typeClause := StringClause("ep_type", MatchingStr(e.epType).value);
    if e.resp.Some? {
      if f.epType == Dual(e.epType) {
        HashClausesTest(e, f, metadata, num);
      }
      ThreeClauses(j, typeClause, StringClause("msg_hash", e.msg.value), StringClause("resp_hash", e.resp.value), num,
                   f.epType == Dual(e.epType), f.msg == e.msg, f.resp == e.resp);
    } else {
      OneClause(j, typeClause, num);
    }
  }

  lemma OneClause(json: Json, a: string, num: NumberReader)
    ensures Validate(json, [a], num) == ValidateOne(json, a, num)
  {
    assert [a][1..] == [];
  }

  lemma ThreeClauses(json: Json, a: string, b: string, c: string, num: NumberReader, ra: bool, rb: bool, rc: bool)
    requires ValidateOne(json, a, num) == Some(ra)
    requires ra ==> ValidateOne(json, b, num) == Some(rb) && ValidateOne(json, c, num) == Some(rc)
    ensures Validate(json, [a] + [b, c], num) == Some(ra && rb && rc)
  {
    assert ([a] + [b, c])[1..] == [b, c] && [b, c][1..] == [c];
    OneClause(json, c, num);
  }

  /** Without a type clause in front, a hash clause makes the source code fail exactly on the
      endpoints that answer no requests. */
  lemma HashClauseAloneFails(e: Endpoint, f: Endpoint, metadata: Json, num: NumberReader)
    requires WellMade(e) && WellMade(f) && Disjoint(metadata) && e.resp.Some?
    ensures ValidateOne(LocalToJson(f, metadata), StringClause("resp_hash", e.resp.value), num).None?
            <==> !AnswersRequests(f.epType)
  {
    ClauseReadsBack("resp_hash", "=", e.resp.value);
  }

  // ---------- Endpoints as components declare them ----------

  /** What a component registers: the schemas themselves, not their hashes. */
  datatype Declared = Declared(name: Option<string>, description: Option<string>, epType: int,
                               msgSchema: Option<string>, respSchema: Option<string>, id: string)

  function Hashed(schema: Option<string>): Option<string> {
    if schema.Some? then Some(SchemaHash.HashOf(schema.value)) else None
  }

  function Registered(d: Declared): Option<Endpoint> {
    EndpointInit(d.name, d.description, d.epType, Hashed(d.msgSchema), Hashed(d.respSchema), d.id)
  }

  lemma RegisteredAreWellMade(d: Declared)
    requires Registered(d).Some?
    ensures WellMade(Registered(d).value) && (AnswersRequests(d.epType) ==> d.msgSchema.Some? && d.respSchema.Some?)
  {
    if d.msgSchema.Some? { HashesHaveNoSpace(d.msgSchema.value); }
    if d.respSchema.Some? { HashesHaveNoSpace(d.respSchema.value); }
    InitiatedAreWellMade(d.name, d.description, d.epType, Hashed(d.msgSchema), Hashed(d.respSchema), d.id);
  }

  predicate SameHashes(d: Declared, c: Declared) {
    Hashed(d.msgSchema) == Hashed(c.msgSchema) && Hashed(d.respSchema) == Hashed(c.respSchema)
  }

  /** Of any two declared endpoints: one's query can be evaluated on the other, and holds exactly if
      the types are paired and, for request and response kinds, both schemas hash alike. */
  lemma DeclaredMatchIff(d: Declared, c: Declared, metadata: Json, num: NumberReader)
    requires Registered(d).Some? && Registered(c).Some? && Disjoint(metadata)
    ensures WellMade(Registered(d).value)
    ensures Validate(LocalToJson(Registered(c).value, metadata), OwnClauses(Registered(d).value), num)
         == Some(Paired(d.epType, c.epType) &&
                 (d.epType in {EP_REQ, EP_RESP, EP_REQ_P, EP_RESP_P, EP_RR, EP_RR_P} ==> SameHashes(d, c)))
  {
    DualIsPaired(d.epType, c.epType);
    RegisteredAreWellMade(d);
    RegisteredAreWellMade(c);
    OwnClausesDecideCompatibility(Registered(d).value, Registered(c).value, metadata, num);
    TypeTablesAgree(d.epType, c.epType);
  }

  /** Endpoints that answer requests and whose message schemas differ in one character never match. */
  lemma OneEditNeverMatches(d: Declared, c: Declared, metadata: Json, num: NumberReader, i: nat, x: char)
    requires Registered(d).Some? && Registered(c).Some? && Disjoint(metadata) && AnswersRequests(d.epType)
    requires d.msgSchema.Some? && i < |d.msgSchema.value| && c.msgSchema == Some(d.msgSchema.value[i := x])
    requires x != d.msgSchema.value[i] && x < 256 as char && d.msgSchema.value[i] < 256 as char
    ensures WellMade(Registered(d).value)
    ensures Validate(LocalToJson(Registered(c).value, metadata), OwnClauses(Registered(d).value), num) == Some(false)
  {
    DeclaredMatchIff(d, c, metadata, num);
    SchemaHash.SingleEditChangesHash(d.msgSchema.value, i, x);
  }

  /** Matching is symmetric: one endpoint's query accepts the other exactly if the other's accepts it. */
  lemma MatchingIsSymmetric(e: Endpoint, f: Endpoint, m1: Json, m2: Json, num: NumberReader)
    requires WellMade(e) && WellMade(f) && Disjoint(m1) && Disjoint(m2)
    ensures Validate(LocalToJson(f, m2), OwnClauses(e), num) == Validate(LocalToJson(e, m1), OwnClauses(f), num)
  {
    OwnClausesDecideCompatibility(e, f, m2, num);
    OwnClausesDecideCompatibility(f, e, m1, num);
    TypeTablesAgree(e.epType, f.epType);
    TypeTablesAgree(f.epType, e.epType);
  }

  /** ep_match_type and ep_match_hash, the tests the query took the place of. */
  predicate MatchType(t: int, u: int) {
    (t, u) in {(EP_SRC, EP_SNK), (EP_SNK, EP_SRC), (EP_REQ, EP_RESP), (EP_RESP, EP_REQ), (EP_REQ_P, EP_RESP_P),
               (EP_RESP_P, EP_REQ_P), (EP_RR, EP_RR), (EP_RR_P, EP_RR_P), (EP_SS, EP_SS)}
  }

  predicate MatchHash(f: Endpoint, msg: Option<string>, resp: Option<string>) {
    if f.resp.None? && resp.None? then f.msg == msg
    else f.resp.Some? && resp.Some? && f.msg == msg && f.resp == resp
  }

  /** ep_match_hash asks for the same message schema and the same response schema, or none on either. */
  lemma MatchHashIsEquality(f: Endpoint, msg: Option<string>, resp: Option<string>)
    ensures MatchHash(f, msg, resp) <==> f.msg == msg && f.resp == resp
  {
  }

  /** The query is more liberal than those tests in exactly two cases: streams, and endpoints that
      answer no requests, whose message schemas it does not compare. */
  lemma QueryVersusMatchTests(e: Endpoint, f: Endpoint, metadata: Json, num: NumberReader)
    requires WellMade(e) && WellMade(f) && Disjoint(metadata)
    ensures Validate(LocalToJson(f, metadata), OwnClauses(e), num) ==
            Some((MatchType(f.epType, e.epType) && MatchHash(f, e.msg, e.resp))
                 || (f.epType == Dual(e.epType) && e.epType in {EP_STR_SRC, EP_STR_SNK})
                 || (f.epType == Dual(e.epType) && !AnswersRequests(e.epType) && f.msg != e.msg))
  {
    OwnClausesDecideCompatibility(e, f, metadata, num);
    CompatibleVersusMatchTests(e, f);
  }

  lemma CompatibleVersusMatchTests(e: Endpoint, f: Endpoint)
    requires WellMade(e) && WellMade(f)
    ensures Compatible(e, f) <==>
              || (MatchType(f.epType, e.epType) && MatchHash(f, e.msg, e.resp))
              || (f.epType == Dual(e.epType) && e.epType in {EP_STR_SRC, EP_STR_SNK})
              || (f.epType == Dual(e.epType) && !AnswersRequests(e.epType) && f.msg != e.msg)
  {
    MatchTypeIsDual(f.epType, e.epType);
    TypeTablesAgree(e.epType, f.epType);
  }

  lemma MatchTypeIsDual(t: int, u: int)
    requires ValidType(t) && ValidType(u)
    ensures MatchType(t, u) <==> t == Dual(u) && u != EP_STR_SRC && u != EP_STR_SNK
  {
  }

  /** Each generated clause fits the buffer of fifty characters it is printed into. */
  lemma ClausesFit(e: Endpoint, msgSchema: string, respSchema: string, clause: string)
    requires WellMade(e) && clause in OwnClauses(e)
    requires (e.msg.Some? ==> e.msg.value == SchemaHash.HashOf(msgSchema))
          && (e.resp.Some? ==> e.resp.value == SchemaHash.HashOf(respSchema))
    ensures |clause| < 50
  {
    TypeNamesHaveNoSpace(e.epType);
    SchemaHash.HashFits(msgSchema);
    SchemaHash.HashFits(respSchema);
  }

  // ---------- The search ----------

  function Shift(r: Option<Option<nat>>, i: nat): Option<Option<nat>> {
    match r
    case None => None
    case Some(k) => Some(if k.Some? then Some(k.value + i) else None)
  }

  /** The first verdict that is true; None where one before it could not be reached. */
  function FirstTrue(verdicts: seq<Option<bool>>): Option<Option<nat>> {
    if verdicts == [] then Some(None)
    else if verdicts[0].None? then None
    else if verdicts[0].value then Some(Some(0))
    else Shift(FirstTrue(verdicts[1..]), 1)
  }

  /** What each registered endpoint's document makes of the query. */
  function Verdicts(locales: seq<Endpoint>, metadata: Json, query: seq<string>, num: NumberReader): seq<Option<bool>> {
    seq(|locales|, i requires 0 <= i < |locales| => Validate(LocalToJson(locales[i], metadata), query, num))
  }

  /** The first endpoint in table order that satisfies every clause; None where an evaluation fails. */
  function EndpointQuery(locales: seq<Endpoint>, metadata: Json, query: seq<string>, num: NumberReader)
    : Option<Option<nat>> {
    FirstTrue(Verdicts(locales, metadata, query, num))
  }

  lemma SearchOn(verdicts: seq<Option<bool>>, i: nat)
    requires i < |verdicts|
    ensures Shift(FirstTrue(verdicts[i..]), i) ==
            if verdicts[i].None? then None
            else if verdicts[i].value then Some(Some(i))
            else Shift(FirstTrue(verdicts[i + 1..]), i + 1)
  {
    assert verdicts[i..][1..] == verdicts[i + 1..];
  }

  /** Walks the table in order, turning each endpoint into a document and testing it. */
  method FindEndpoint(locales: seq<Endpoint>, metadata: Json, query: seq<string>, num: NumberReader)
    returns (found: Option<Option<nat>>)
    ensures found == EndpointQuery(locales, metadata, query, num)
  {
    ghost var verdicts := Verdicts(locales, metadata, query, num);
    var i := 0;
    while i < |locales|
      invariant 0 <= i <= |locales| == |verdicts|
      invariant FirstTrue(verdicts) == Shift(FirstTrue(verdicts[i..]), i)
    {
      var ok := ValidateArray(LocalToJson(locales[i], metadata), query, num);
      assert verdicts[i] == ok;
      SearchOn(verdicts, i);
      if ok.None? { return None; }
      if ok.value { return Some(Some(i)); }
      i := i + 1;
    }
    found := Some(None);
  }

  lemma {:induction false} FirstMatch(verdicts: seq<Option<bool>>)
    requires FirstTrue(verdicts).Some?
    ensures var r := FirstTrue(verdicts).value;
            && (r.Some? ==> r.value < |verdicts| && verdicts[r.value] == Some(true))
            && (forall k | 0 <= k < (if r.Some? then r.value else |verdicts|) :: verdicts[k] == Some(false))
  {
    if verdicts != [] && verdicts[0] == Some(false) {
      FirstMatch(verdicts[1..]);
      var r := FirstTrue(verdicts).value;
      forall k | 0 <= k < (if r.Some? then r.value else |verdicts|) ensures verdicts[k] == Some(false) {
        if k > 0 { assert verdicts[k] == verdicts[1..][k - 1]; }
      }
    }
  }

  lemma {:induction false} NoVerdictMissing(verdicts: seq<Option<bool>>)
    requires forall v | v in verdicts :: v.Some?
    ensures FirstTrue(verdicts).Some?
  {
    if verdicts != [] {
      assert verdicts[0] in verdicts && forall v | v in verdicts[1..] :: v in verdicts;
      NoVerdictMissing(verdicts[1..]);
    }
  }

  predicate Accepts(f: Endpoint, metadata: Json, epQuery: seq<string>, num: NumberReader) {
    Validate(LocalToJson(f, metadata), epQuery, num) == Some(true)
  }

  predicate Rejects(f: Endpoint, metadata: Json, epQuery: seq<string>, num: NumberReader) {
    Validate(LocalToJson(f, metadata), epQuery, num) == Some(false)
  }

  /** If the peer's query finds an endpoint, that endpoint is compatible with the peer's and
      satisfies the peer's own clauses, and no endpoint before it in the table does both. */
  lemma MatchedEndpointIsDual(locales: seq<Endpoint>, metadata: Json, e: Endpoint,
                              epQuery: seq<string>, num: NumberReader)
    requires WellMade(e) && Disjoint(metadata) && forall f | f in locales :: WellMade(f)
    requires EndpointQuery(locales, metadata, BuildQuery(e, epQuery), num).Some?
    ensures var r := EndpointQuery(locales, metadata, BuildQuery(e, epQuery), num).value;
            && (r.Some? ==> r.value < |locales| && Compatible(e, locales[r.value])
                            && Accepts(locales[r.value], metadata, epQuery, num))
            && (forall k | 0 <= k < (if r.Some? then r.value else |locales|) ::
                  !Compatible(e, locales[k]) || Rejects(locales[k], metadata, epQuery, num))
  {
    var verdicts := Verdicts(locales, metadata, BuildQuery(e, epQuery), num);
    FirstMatch(verdicts);
    var r := FirstTrue(verdicts).value;
    if r.Some? {
      assert locales[r.value] in locales;
      QueryOnOne(e, locales[r.value], metadata, epQuery, num, verdicts[r.value]);
    }
    forall k | 0 <= k < (if r.Some? then r.value else |locales|)
      ensures !Compatible(e, locales[k]) || Rejects(locales[k], metadata, epQuery, num)
    {
      assert locales[k] in locales;
      QueryOnOne(e, locales[k], metadata, epQuery, num, verdicts[k]);
    }
  }

  /** A whole query on one endpoint: the caller's clauses, then compatibility. */
  lemma QueryOnOne(e: Endpoint, f: Endpoint, metadata: Json, epQuery: seq<string>,
                   num: NumberReader, verdict: Option<bool>)
    requires WellMade(e) && WellMade(f) && Disjoint(metadata)
    requires verdict == Validate(LocalToJson(f, metadata), BuildQuery(e, epQuery), num)
    ensures verdict == Some(true) <==> Accepts(f, metadata, epQuery, num) && Compatible(e, f)
    ensures verdict == Some(false) <==>
              Rejects(f, metadata, epQuery, num) || (Accepts(f, metadata, epQuery, num) && !Compatible(e, f))
  {
    ValidateConcat(LocalToJson(f, metadata), epQuery, OwnClauses(e), num);
    OwnClausesDecideCompatibility(e, f, metadata, num);
  }

  /** With no clauses of the caller's, the search never fails and finds an endpoint exactly if a
      compatible one is registered. */
  lemma PlainQueryNeverFails(locales: seq<Endpoint>, metadata: Json, e: Endpoint, num: NumberReader)
    requires WellMade(e) && Disjoint(metadata) && forall f | f in locales :: WellMade(f)
    ensures var r := EndpointQuery(locales, metadata, BuildQuery(e, []), num);
            r.Some? && (r.value.Some? <==> exists f :: f in locales && Compatible(e, f))
  {
    assert BuildQuery(e, []) == OwnClauses(e);
    var verdicts := Verdicts(locales, metadata, OwnClauses(e), num);
    forall k | 0 <= k < |locales| ensures verdicts[k] == Some(Compatible(e, locales[k])) {
      assert locales[k] in locales;
      OwnClausesDecideCompatibility(e, locales[k], metadata, num);
    }
    NoVerdictMissing(verdicts);
    FirstMatch(verdicts);
    var r := FirstTrue(verdicts).value;
    if r.Some? {
      assert locales[r.value] in locales;
    }
  }
}
