/** scripts/database_inventory.py: recovering SQL text from expressions and module constants without running them. */
module StaticSql {
  import opened Base

  datatype Piece = Literal(text: string) | Formatted(value: Expr)

  datatype Callee = Attr(receiver: Expr, attr: string) | OtherCallee

  /** The expression forms _static_sql tells apart; Opaque is every other node. */
  datatype Expr =
    | Str(text: string)
    | Name(id: string)
    | JoinedStr(pieces: seq<Piece>)
    | Add(left: Expr, right: Expr)
    | Call(callee: Callee, args: seq<Expr>)
    | Opaque(node: int)

  const HOLE := "{dynamic}"

  /** The recovered text, and whether some of it is only known at run time. */
  datatype Recovered = Recovered(text: string, dynamic: bool)

  type Constants = map<string, Recovered>

  function PiecesText(pieces: seq<Piece>): Recovered {
    if pieces == [] then Recovered("", false)
    else
      var before := PiecesText(pieces[..|pieces| - 1]);
      match pieces[|pieces| - 1]
      case Literal(text) => Recovered(before.text + text, before.dynamic)
      case Formatted(_) => Recovered(before.text + HOLE, true)
  }

  /** _static_sql */
  function StaticSql(e: Expr, constants: Constants): Recovered {
    match e
    case Str(text) => Recovered(text, false)
    case Name(id) => if id in constants then constants[id] else Recovered(HOLE, true)
    case JoinedStr(pieces) => PiecesText(pieces)
    case Add(left, right) =>
      var l, r := StaticSql(left, constants), StaticSql(right, constants);
      Recovered(l.text + r.text, l.dynamic || r.dynamic)
    case Call(callee, args) =>
      if args != [] && callee.Attr? && callee.attr in {"format", "join"} then
        Recovered(StaticSql(callee.receiver, constants).text + HOLE, true)
      else if args != [] && callee.Attr? && callee.attr in {"dedent", "strip"} then StaticSql(args[0], constants)
      else Recovered(HOLE, true)
    case Opaque(_) => Recovered(HOLE, true)
  }

  // ---- run time -----------------------------------------------------------------------

  /** A string, the textwrap module, or anything else. */
  datatype Value = Text(text: string) | Textwrap | NotText

  type Env = map<string, Value>

  /** What the analysis cannot see: how a formatted value renders, and what other nodes evaluate to (None raises). */
  datatype Runtime = Runtime(render: (Expr, Env) -> string, other: (Expr, Env) -> Option<Value>)

  function EvalPieces(rt: Runtime, pieces: seq<Piece>, env: Env): string {
    if pieces == [] then ""
    else
      EvalPieces(rt, pieces[..|pieces| - 1], env) +
      match pieces[|pieces| - 1]
      case Literal(text) => text
      case Formatted(value) => rt.render(value, env)
  }

  /** `s.lstrip(chars)`, `s.rstrip(chars)` and `s.strip(chars)`. */
  function StripLeft(s: string, chars: string): string {
    if s != "" && s[0] in chars then StripLeft(s[1..], chars) else s
  }

  function StripRight(s: string, chars: string): string {
    if s != "" && s[|s| - 1] in chars then StripRight(s[..|s| - 1], chars) else s
  }

  function Strip(s: string, chars: string): string {
    StripRight(StripLeft(s, chars), chars)
  }

  // `textwrap.dedent`

  function LinesOf(text: string): (r: seq<string>)
    ensures r != []
  {
    if text == "" then [""]
    else
      var rest := LinesOf(text[1..]);
      if text[0] == '\n' then [""] + rest else [[text[0]] + rest[0]] + rest[1..]
  }

  function JoinLines(lines: seq<string>): string
    requires lines != []
  {
    if |lines| == 1 then lines[0] else lines[0] + "\n" + JoinLines(lines[1..])
  }

  predicate IsIndent(c: char) {
    c == ' ' || c == '\t'
  }

  predicate Blank(line: string) {
    forall i :: 0 <= i < |line| ==> IsIndent(line[i])
  }

  function Indent(line: string): string {
    if line != "" && IsIndent(line[0]) then [line[0]] + Indent(line[1..]) else ""
  }

  function CommonPrefix(a: string, b: string): string {
    if a != "" && b != "" && a[0] == b[0] then [a[0]] + CommonPrefix(a[1..], b[1..]) else ""
  }

  /** The longest common indent of the lines that are not blank; None when all are. */
  function Margin(lines: seq<string>): Option<string> {
    if lines == [] then None
    else
      var before, line := Margin(lines[..|lines| - 1]), lines[|lines| - 1];
      if Blank(line) then before
      else if before.None? then Some(Indent(line))
      else Some(CommonPrefix(before.value, Indent(line)))
  }

  function MarginOf(lines: seq<string>): string {
    if Margin(lines).Some? then Margin(lines).value else ""
  }

  /** Blank lines lose all their blanks, the others the margin. */
  function DedentLine(line: string, margin: string): string {
    if Blank(line) then ""
    else if margin <= line then line[|margin|..]
    else line
  }

  function DedentLines(lines: seq<string>, margin: string): (r: seq<string>)
    ensures |r| == |lines| && forall i :: 0 <= i < |r| ==> r[i] == DedentLine(lines[i], margin)
  {
    seq(|lines|, i requires 0 <= i < |lines| => DedentLine(lines[i], margin))
  }

  function Dedent(text: string): string {
    JoinLines(DedentLines(LinesOf(text), MarginOf(LinesOf(text))))
  }

  /** `receiver.attr(arg)` on values the standard library gives a meaning to; None when it does not. */
  function MethodResult(receiver: Value, attr: string, arg: Value): Option<string> {
    if attr == "strip" && receiver.Text? && arg.Text? then Some(Strip(receiver.text, arg.text))
    else if attr == "dedent" && receiver.Textwrap? && arg.Text? then Some(Dedent(arg.text))
    else None
  }

  /** The value of an expression; None when evaluating it raises. */
  function Eval(rt: Runtime, e: Expr, env: Env): Option<Value> {
    match e
    case Str(text) => Some(Text(text))
    case Name(id) => if id in env then Some(env[id]) else None
    case JoinedStr(pieces) => Some(Text(EvalPieces(rt, pieces, env)))
    case Add(left, right) =>
      var l, r := Eval(rt, left, env), Eval(rt, right, env);
      if l.None? || r.None? then None
      else if l.value.Text? && r.value.Text? then Some(Text(l.value.text + r.value.text))
      else if l.value.NotText? && r.value.NotText? then Some(NotText)
      else None
    case Call(callee, args) =>
      if callee.Attr? && callee.attr in {"strip", "dedent"} && |args| == 1 then
        var receiver, arg := Eval(rt, callee.receiver, env), Eval(rt, args[0], env);
        if receiver.None? || arg.None? then None
        else
          var result := MethodResult(receiver.value, callee.attr, arg.value);
          if result.Some? then Some(Text(result.value)) else rt.other(e, env)
      else rt.other(e, env)
    case Opaque(_) => rt.other(e, env)
  }

  // ---- templates --------------------------------------------------------------------------

  /** Some way of filling holes of the template gives the text. */
  predicate Fills(template: string, text: string)
    decreases |template|
  {
    if template == "" then text == ""
    else
      || (text != "" && template[0] == text[0] && Fills(template[1..], text[1..]))
      || (HOLE <= template && exists k :: 0 <= k <= |text| && Fills(template[|HOLE|..], text[k..]))
  }

  lemma {:induction false} FillsSelf(text: string)
    ensures Fills(text, text)
  {
    if text != "" { FillsSelf(text[1..]); }
  }

  lemma FillsHole(text: string)
    ensures Fills(HOLE, text)
  {
    assert HOLE[|HOLE|..] == "" && text[|text|..] == "";
    assert Fills(HOLE[|HOLE|..], text[|text|..]);
  }

  /** Fillings of two templates make a filling of their concatenation. */
  lemma {:induction false} FillsConcat(a: string, s: string, b: string, t: string)
    requires Fills(a, s) && Fills(b, t)
    ensures Fills(a + b, s + t)
    decreases |a|
  {
    if a == "" {
      assert a + b == b && s + t == t;
    } else if s != "" && a[0] == s[0] && Fills(a[1..], s[1..]) {
      FillsConcat(a[1..], s[1..], b, t);
      SameCharFills(a, s, b, t);
    } else {
      var k :| 0 <= k <= |s| && Fills(a[|HOLE|..], s[k..]);
      FillsConcat(a[|HOLE|..], s[k..], b, t);
      HoleFillsLonger(a, s, b, t, k);
    }
  }

  lemma SameCharFills(a: string, s: string, b: string, t: string)
    requires a != "" && s != "" && a[0] == s[0] && Fills(a[1..] + b, s[1..] + t)
    ensures Fills(a + b, s + t)
  {
    assert (a + b)[1..] == a[1..] + b && (s + t)[1..] == s[1..] + t;
    CharFills(a + b, s + t);
  }

  lemma CharFills(template: string, text: string)
    requires template != "" && text != "" && template[0] == text[0] && Fills(template[1..], text[1..])
    ensures Fills(template, text)
  {
  }

  lemma HoleFillsLonger(a: string, s: string, b: string, t: string, k: nat)
    requires HOLE <= a && k <= |s| && Fills(a[|HOLE|..] + b, s[k..] + t)
    ensures Fills(a + b, s + t)
  {
    assert (a + b)[|HOLE|..] == a[|HOLE|..] + b && (s + t)[k..] == s[k..] + t;
    HoleFills(a + b, s + t, k);
  }

  lemma HoleFills(template: string, text: string, k: nat)
    requires HOLE <= template && k <= |text| && Fills(template[|HOLE|..], text[k..])
    ensures Fills(template, text)
  {
  }

  // ---- soundness of expressions ----------------------------------------------------------------

  /** The recovered text is right about the value: equal when not dynamic, a template of it otherwise. */
  predicate RightAbout(r: Recovered, v: Value) {
    if r.dynamic then v.Text? ==> Fills(r.text, v.text) else v == Text(r.text)
  }

  /** Every recorded constant is bound and right. */
  predicate Consistent(constants: Constants, env: Env) {
    forall id :: id in constants ==> id in env && RightAbout(constants[id], env[id])
  }

  /** The names whose recorded text the recovery of e may take in. */
  function Names(e: Expr): set<string> {
    match e
    case Name(id) => {id}
    case Add(left, right) => Names(left) + Names(right)
    case _ => {}
  }

  /** Those of the names that are recorded are right wherever they are bound. */
  predicate RightOn(names: set<string>, constants: Constants, env: Env) {
    forall id :: id in names && id in constants && id in env ==> RightAbout(constants[id], env[id])
  }

  /** No string-method call whose effect the analysis guesses at. */
  predicate Plain(e: Expr) {
    match e
    case Add(left, right) => Plain(left) && Plain(right)
    case Call(callee, args) => args == [] || !callee.Attr? || callee.attr !in {"format", "join", "dedent", "strip"}
    case _ => true
  }

  lemma {:induction false} PiecesRight(rt: Runtime, pieces: seq<Piece>, env: Env)
    ensures RightAbout(PiecesText(pieces), Text(EvalPieces(rt, pieces, env)))
  {
    if pieces != [] {
      var init := pieces[..|pieces| - 1];
      PiecesRight(rt, init, env);
      var before, text := PiecesText(init), EvalPieces(rt, init, env);
      if !before.dynamic { FillsSelf(text); }
      match pieces[|pieces| - 1] {
        case Literal(more) =>
          FillsSelf(more);
          FillsConcat(before.text, text, more, more);
        case Formatted(value) =>
          FillsHole(rt.render(value, env));
          FillsConcat(before.text, text, HOLE, rt.render(value, env));
      }
    }
  }

  /** Either way, the recovered text is a template of the run-time string. */
  lemma TemplateOf(r: Recovered, v: Value)
    requires RightAbout(r, v) && v.Text?
    ensures Fills(r.text, v.text)
  {
    if !r.dynamic { FillsSelf(r.text); }
  }

  /** The analysis is right about every plain expression that evaluates where its names are right. */
  lemma {:induction false} ExpressionSound(rt: Runtime, e: Expr, constants: Constants, env: Env)
    requires Plain(e) && RightOn(Names(e), constants, env) && Eval(rt, e, env).Some?
    ensures RightAbout(StaticSql(e, constants), Eval(rt, e, env).value)
  {
    match e {
      case Str(text) =>
      case Name(id) => if id !in constants && env[id].Text? { FillsHole(env[id].text); }
      case JoinedStr(pieces) => PiecesRight(rt, pieces, env);
      case Add(left, right) =>
        assert RightOn(Names(left), constants, env) && RightOn(Names(right), constants, env);
        ExpressionSound(rt, left, constants, env);
        ExpressionSound(rt, right, constants, env);
        var l, r := Eval(rt, left, env).value, Eval(rt, right, env).value;
        if l.Text? && r.Text? {
          TemplateOf(StaticSql(left, constants), l);
          TemplateOf(StaticSql(right, constants), r);
          FillsConcat(StaticSql(left, constants).text, l.text, StaticSql(right, constants).text, r.text);
        }
      case Call(_, _) => if Eval(rt, e, env).value.Text? { FillsHole(Eval(rt, e, env).value.text); }
      case Opaque(_) => if Eval(rt, e, env).value.Text? { FillsHole(Eval(rt, e, env).value.text); }
    }
  }

  // ---- modules ---------------------------------------------------------------------------------

  /** Module statements: the two assignment forms the scanner reads, `id += e`, and any other with its bindings. */
  datatype Stmt =
    | Assign(id: string, value: Expr)
    | Annotated(id: string, optional: Option<Expr>)
    | AugAdd(id: string, value: Expr)
    | Elsewhere(binds: Env)

  /** _module_constants as a function of the statements. */
  function ModuleConstants(body: seq<Stmt>): Constants {
    if body == [] then map[]
    else Extend(ModuleConstants(body[..|body| - 1]), body[|body| - 1])
  }

  function Extend(constants: Constants, stmt: Stmt): Constants {
    match stmt
    case Assign(id, value) => constants[id := StaticSql(value, constants)]
    case Annotated(id, Some(value)) => constants[id := StaticSql(value, constants)]
    case _ => constants
  }

  method CollectModuleConstants(body: seq<Stmt>) returns (constants: Constants)
    ensures constants == ModuleConstants(body)
  {
    constants := map[];
    for i := 0 to |body|
      invariant constants == ModuleConstants(body[..i])
    {
      assert body[..i + 1][..i] == body[..i];
      if body[i].Assign? {
        constants := constants[body[i].id := StaticSql(body[i].value, constants)];
      } else if body[i].Annotated? {
        if body[i].optional.Some? {
          constants := constants[body[i].id := StaticSql(body[i].optional.value, constants)];
        }
      }
    }
    assert body[..|body|] == body;
  }

  /** One statement at run time; None when it raises. */
  function ExecOne(rt: Runtime, stmt: Stmt, env: Env): Option<Env> {
    match stmt
    case Assign(id, value) => BindResult(env, id, Eval(rt, value, env))
    case Annotated(id, None) => Some(env)
    case Annotated(id, Some(value)) => BindResult(env, id, Eval(rt, value, env))
    case AugAdd(id, value) => BindResult(env, id, Eval(rt, Add(Name(id), value), env))
    case Elsewhere(binds) => Some(env + binds)
  }

  function BindResult(env: Env, id: string, v: Option<Value>): Option<Env> {
    if v.None? then None else Some(env[id := v.value])
  }

  function Exec(rt: Runtime, body: seq<Stmt>, env: Env): Option<Env> {
    if body == [] then Some(env)
    else
      var before := Exec(rt, body[..|body| - 1], env);
      if before.None? then None else ExecOne(rt, body[|body| - 1], before.value)
  }

  /** The scanner reads every statement that binds a name it tracks, and every value it reads is plain. */
  predicate Visible(body: seq<Stmt>) {
    forall i :: 0 <= i < |body| ==> VisibleStmt(ModuleConstants(body), body[i])
  }

  predicate VisibleStmt(tracked: Constants, stmt: Stmt) {
    match stmt
    case Assign(_, value) => Plain(value)
    case Annotated(_, value) => value.Some? ==> Plain(value.value)
    case AugAdd(id, _) => id !in tracked
    case Elsewhere(binds) => forall id :: id in binds ==> id !in tracked
  }

  lemma {:induction false} TrackedGrows(body: seq<Stmt>, k: nat)
    requires k <= |body|
    ensures forall id :: id in ModuleConstants(body[..k]) ==> id in ModuleConstants(body)
  {
    if k < |body| {
      TrackedGrows(body[..|body| - 1], k);
      assert body[..|body| - 1][..k] == body[..k];
    } else {
      assert body[..k] == body;
    }
  }

  lemma {:induction false} ModuleSoundUpTo(rt: Runtime, body: seq<Stmt>, env: Env, k: nat)
    requires k <= |body| && Visible(body) && Exec(rt, body[..k], env).Some?
    ensures Consistent(ModuleConstants(body[..k]), Exec(rt, body[..k], env).value)
    decreases k
  {
    if k > 0 {
      assert body[..k][..k - 1] == body[..k - 1];
      ModuleSoundUpTo(rt, body, env, k - 1);
      TrackedGrows(body, k - 1);
      var before, constants, stmt := Exec(rt, body[..k - 1], env).value, ModuleConstants(body[..k - 1]), body[k - 1];
      assert VisibleStmt(ModuleConstants(body), stmt);
      match stmt {
        case Assign(_, value) => ExpressionSound(rt, value, constants, before);
        case Annotated(_, Some(value)) => ExpressionSound(rt, value, constants, before);
        case _ =>
      }
    }
  }

  // ---- queries in functions -----------------------------------------------------------------------

  /** Of the names, those no local binds are recorded already as they will be at the end of the module. */
  predicate Settled(names: set<string>, before: Constants, constants: Constants, locals: Env) {
    forall id :: id in names && id in constants && id !in locals ==> id in before && before[id] == constants[id]
  }

  /**
   * A module whose tracked names are bound only by statements the scanner reads, and a
   * query in a function that is called once k statements have run and whose locals overlay
   * the module's names: where the locals give the names it uses nothing wrong and the others
   * are not assigned anew later, whatever a plain query is recovered as is right about its
   * run-time value.
   */
  lemma ModuleSound(rt: Runtime, body: seq<Stmt>, k: nat, env: Env, locals: Env, query: Expr)
    requires k <= |body| && Visible(body) && Exec(rt, body[..k], env).Some? && Plain(query)
    requires RightOn(Names(query), ModuleConstants(body), locals)
    requires Settled(Names(query), ModuleConstants(body[..k]), ModuleConstants(body), locals)
    ensures var scope := Exec(rt, body[..k], env).value + locals;
      Eval(rt, query, scope).Some? ==> RightAbout(StaticSql(query, ModuleConstants(body)), Eval(rt, query, scope).value)
  {
    ModuleSoundUpTo(rt, body, env, k);
    var scope := Exec(rt, body[..k], env).value + locals;
    if Eval(rt, query, scope).Some? { ExpressionSound(rt, query, ModuleConstants(body), scope); }
  }

  /** The names of the query that are bound to something else than their recorded text, or not at all. */
  function Differing(query: Expr, constants: Constants, scope: Env): set<string> {
    set id | id in Names(query) && !(id in constants && id in scope && scope[id] == Text(constants[id].text))
  }

  lemma {:induction false} PiecesLiteral(rt: Runtime, pieces: seq<Piece>, env: Env)
    requires !PiecesText(pieces).dynamic
    ensures EvalPieces(rt, pieces, env) == PiecesText(pieces).text
  {
    if pieces != [] { PiecesLiteral(rt, pieces[..|pieces| - 1], env); }
  }

  lemma {:induction false} NothingDiffers(rt: Runtime, query: Expr, constants: Constants, scope: Env)
    requires Plain(query) && !StaticSql(query, constants).dynamic && Differing(query, constants, scope) == {}
    ensures Eval(rt, query, scope) == Some(Text(StaticSql(query, constants).text))
  {
    match query {
      case Name(id) => assert id !in Differing(query, constants, scope);
      case JoinedStr(pieces) => PiecesLiteral(rt, pieces, scope);
      case Add(left, right) =>
        assert Differing(left, constants, scope) <= Differing(query, constants, scope);
        assert Differing(right, constants, scope) <= Differing(query, constants, scope);
        NothingDiffers(rt, left, constants, scope);
        NothingDiffers(rt, right, constants, scope);
      case _ =>
    }
  }

  /** How a text compares with the recovered one when a single used name has another value. */
  predicate Deviates(actual: string, recovered: string, bound: string, recorded: string) {
    if |bound| < |recorded| then |actual| < |recovered|
    else if |bound| > |recorded| then |actual| > |recovered|
    else |actual| == |recovered| && actual != recovered
  }

  lemma SumDeviates(a: string, b: string, c: string, d: string, bound: string, recorded: string)
    requires bound != recorded
    requires (a == c && Deviates(b, d, bound, recorded)) || (Deviates(a, c, bound, recorded) && b == d)
      || (Deviates(a, c, bound, recorded) && Deviates(b, d, bound, recorded))
    ensures Deviates(a + b, c + d, bound, recorded)
  {
    assert (a + b)[..|a|] == a && (c + d)[..|c|] == c;
    assert (a + b)[|a|..] == b && (c + d)[|c|..] == d;
  }

  lemma {:induction false} OneDiffers(rt: Runtime, query: Expr, constants: Constants, scope: Env, id: string)
    requires Plain(query) && !StaticSql(query, constants).dynamic && Differing(query, constants, scope) == {id}
    requires Eval(rt, query, scope).Some? && Eval(rt, query, scope).value.Text?
    ensures id in constants && id in scope && scope[id].Text? && scope[id].text != constants[id].text
    ensures Deviates(Eval(rt, query, scope).value.text, StaticSql(query, constants).text, scope[id].text,
                     constants[id].text)
  {
    assert id in Differing(query, constants, scope);
    match query {
      case Name(used) => assert used == id;
      case Add(left, right) =>
        SplitDiffering(left, right, constants, scope);
        if Differing(left, constants, scope) == {} { NothingDiffers(rt, left, constants, scope); }
        else { assert Differing(left, constants, scope) == {id}; OneDiffers(rt, left, constants, scope, id); }
        if Differing(right, constants, scope) == {} { NothingDiffers(rt, right, constants, scope); }
        else { assert Differing(right, constants, scope) == {id}; OneDiffers(rt, right, constants, scope, id); }
        SumDeviates(Eval(rt, left, scope).value.text, Eval(rt, right, scope).value.text,
                    StaticSql(left, constants).text, StaticSql(right, constants).text,
                    scope[id].text, constants[id].text);
      case _ =>
    }
  }

  lemma SplitDiffering(left: Expr, right: Expr, constants: Constants, scope: Env)
    ensures Differing(Add(left, right), constants, scope) ==
            Differing(left, constants, scope) + Differing(right, constants, scope)
  {
  }

  /** What the module gives the name once k statements have run, if it is the text. */
  predicate Has(body: seq<Stmt>, k: nat, env: Env, after: Env, id: string, text: string)
    requires k <= |body|
  {
    var before := ModuleConstants(body[..k]);
    if id !in before then id in env && env[id] == Text(text)
    else if before[id].dynamic then id in after && after[id] == Text(text)
    else before[id].text == text
  }

  /**
   * The names of the query with another value than their final record: a local has another,
   * or the module had another when the call was made, or none yet. For a name recorded as
   * exact by then, the two records tell.
   */
  function Misread(query: Expr, body: seq<Stmt>, k: nat, env: Env, after: Env, locals: Env): set<string>
    requires k <= |body|
  {
    var constants := ModuleConstants(body);
    set id | id in Names(query) && id in constants
             && !(if id in locals then locals[id] == Text(constants[id].text)
                  else Has(body, k, env, after, id, constants[id].text))
  }

  /** A name that is tracked in the end but not yet has the value it began with. */
  lemma {:induction false} NotYetBound(rt: Runtime, body: seq<Stmt>, env: Env, k: nat, id: string)
    requires k <= |body| && Visible(body) && Exec(rt, body[..k], env).Some?
    requires id in ModuleConstants(body) && id !in ModuleConstants(body[..k])
    ensures var after := Exec(rt, body[..k], env).value;
      (id in after <==> id in env) && (id in env ==> after[id] == env[id])
    decreases k
  {
    if k > 0 {
      assert body[..k][..k - 1] == body[..k - 1];
      assert VisibleStmt(ModuleConstants(body), body[k - 1]);
      NotYetBound(rt, body, env, k - 1, id);
    }
  }

  /** Every name of a query recovered as exact is recorded, as exact. */
  lemma {:induction false} ExactNames(query: Expr, constants: Constants)
    requires Plain(query) && !StaticSql(query, constants).dynamic
    ensures forall id :: id in Names(query) ==> id in constants && !constants[id].dynamic
  {
    if query.Add? {
      ExactNames(query.left, constants);
      ExactNames(query.right, constants);
    }
  }

  lemma MisreadDiffers(rt: Runtime, body: seq<Stmt>, k: nat, env: Env, locals: Env, query: Expr)
    requires k <= |body| && Visible(body) && Exec(rt, body[..k], env).Some? && Plain(query)
    requires !StaticSql(query, ModuleConstants(body)).dynamic
    ensures var after := Exec(rt, body[..k], env).value;
      Differing(query, ModuleConstants(body), after + locals) == Misread(query, body, k, env, after, locals)
  {
    var constants, after := ModuleConstants(body), Exec(rt, body[..k], env).value;
    ModuleSoundUpTo(rt, body, env, k);
    ExactNames(query, constants);
    forall id | id in Names(query) && id !in ModuleConstants(body[..k])
      ensures (id in after <==> id in env) && (id in env ==> after[id] == env[id])
    {
      NotYetBound(rt, body, env, k, id);
    }
    forall id ensures id in Differing(query, constants, after + locals) <==>
                      id in Misread(query, body, k, env, after, locals)
    {
    }
  }

  /**
   * A query recovered as not dynamic is the string the database is sent, whenever its
   * function is called, if the names it uses then have their final texts; and, when just
   * one of them has not, only then.
   */
  lemma StaticQueryIsExact(rt: Runtime, body: seq<Stmt>, k: nat, env: Env, locals: Env, query: Expr)
    requires k <= |body| && Visible(body) && Exec(rt, body[..k], env).Some? && Plain(query)
    requires !StaticSql(query, ModuleConstants(body)).dynamic
    ensures var constants, after := ModuleConstants(body), Exec(rt, body[..k], env).value;
      var misread := Misread(query, body, k, env, after, locals);
      (forall x, y :: x in misread && y in misread ==> x == y) ==>
        (Eval(rt, query, after + locals) == Some(Text(StaticSql(query, constants).text)) <==> misread == {})
  {
    var constants, after := ModuleConstants(body), Exec(rt, body[..k], env).value;
    var misread := Misread(query, body, k, env, after, locals);
    MisreadDiffers(rt, body, k, env, locals, query);
    if misread == {} {
      NothingDiffers(rt, query, constants, after + locals);
    } else if forall x, y :: x in misread && y in misread ==> x == y {
      var id :| id in misread;
      assert misread == {id};
      if Eval(rt, query, after + locals) == Some(Text(StaticSql(query, constants).text)) {
        OneDiffers(rt, query, constants, after + locals, id);
      }
    }
  }

  /** `Q = a`, the call, then `Q = b`: the later text is recovered, as exact, and the earlier one sent. */
  lemma CalledTooEarly(rt: Runtime, id: string, a: string, b: string)
    ensures var body := [Assign(id, Str(a))] + [Assign(id, Str(b))];
      && StaticSql(Name(id), ModuleConstants(body)) == Recovered(b, false)
      && Exec(rt, body[..1], map[]).Some?
      && Eval(rt, Name(id), Exec(rt, body[..1], map[]).value) == Some(Text(a))
  {
    var body := [Assign(id, Str(a))] + [Assign(id, Str(b))];
    assert body[..1] == [Assign(id, Str(a))] && body[..|body| - 1] == [Assign(id, Str(a))];
    AssignedOnce(rt, id, a);
  }

  /** A parameter of the constant's name: another string is sent than the one recovered as exact. */
  lemma ShadowedConstantMisread(rt: Runtime)
    ensures var body, locals := [Assign("Q", Str("SELECT 1"))], map["Q" := Text("DELETE FROM t")];
      && StaticSql(Name("Q"), ModuleConstants(body)) == Recovered("SELECT 1", false)
      && Exec(rt, body, map[]).Some?
      && Eval(rt, Name("Q"), Exec(rt, body, map[]).value + locals) == Some(Text("DELETE FROM t"))
  {
    AssignedOnce(rt, "Q", "SELECT 1");
  }

  /** Two shadowed names may cancel out, so more than one says nothing either way. */
  lemma ShadowsCanCancel(rt: Runtime)
    ensures var constants := map["A" := Recovered("x", false), "B" := Recovered("", false)];
      var query, scope := Add(Name("A"), Name("B")), map["A" := Text(""), "B" := Text("x")];
      && Differing(query, constants, scope) == {"A", "B"}
      && Eval(rt, query, scope) == Some(Text(StaticSql(query, constants).text))
  {
    var query, scope: Env := Add(Name("A"), Name("B")), map["A" := Text(""), "B" := Text("x")];
    assert Eval(rt, Name("A"), scope) == Some(Text("")) && Eval(rt, Name("B"), scope) == Some(Text("x"));
    assert "" + "x" == "x" + "";
  }

  // ---- statements the scanner does not read -----------------------------------------------------------

  predicate Binds(stmt: Stmt, id: string) {
    match stmt
    case Assign(target, _) => target == id
    case Annotated(target, value) => target == id && value.Some?
    case AugAdd(target, _) => target == id
    case Elsewhere(binds) => id in binds
  }

  /** Statements that do not bind a name change neither its value nor its record. */
  lemma {:induction false} LaterKeeps(rt: Runtime, a: seq<Stmt>, b: seq<Stmt>, id: string, env: Env)
    requires forall i :: 0 <= i < |b| ==> !Binds(b[i], id)
    requires Exec(rt, a + b, env).Some?
    ensures Exec(rt, a, env).Some?
    ensures var mid, after := Exec(rt, a, env).value, Exec(rt, a + b, env).value;
      (id in after <==> id in mid) && (id in mid ==> after[id] == mid[id])
    ensures id in ModuleConstants(a + b) <==> id in ModuleConstants(a)
    ensures id in ModuleConstants(a) ==> ModuleConstants(a + b)[id] == ModuleConstants(a)[id]
    decreases |b|
  {
    if b == [] {
      assert a + b == a;
    } else {
      var init, last := b[..|b| - 1], b[|b| - 1];
      assert (a + b)[..|a + b| - 1] == a + init;
      LaterKeeps(rt, a, init, id, env);
      assert !Binds(last, id);
    }
  }

  /** Does the statement leave the name with the text that was recorded for it? For a name last recorded as exact. */
  predicate Harmless(rt: Runtime, stmt: Stmt, id: string, env: Env, recorded: string) {
    match stmt
    case AugAdd(_, value) => Eval(rt, value, env) == Some(Text(""))
    case Elsewhere(binds) => id in binds && binds[id] == Text(recorded)
    case _ => false
  }

  /**
   * `id += e`, or a binding anywhere else (a loop, a branch, a tuple assignment, an import):
   * the scanner keeps the text it recorded before, marked exact, and at the end it is right
   * if and only if the addition is empty, or the other binding brings the very same text.
   */
  lemma UnreadBindingMisread(rt: Runtime, before: seq<Stmt>, stmt: Stmt, after: seq<Stmt>, id: string, env: Env)
    requires Visible(before) && id in ModuleConstants(before) && !ModuleConstants(before)[id].dynamic
    requires (stmt.AugAdd? || stmt.Elsewhere?) && Binds(stmt, id)
    requires forall i :: 0 <= i < |after| ==> !Binds(after[i], id)
    requires Exec(rt, before + [stmt] + after, env).Some?
    ensures var body, recorded := before + [stmt] + after, ModuleConstants(before)[id];
      && id in ModuleConstants(body) && ModuleConstants(body)[id] == recorded
      && Exec(rt, before, env).Some? && id in Exec(rt, body, env).value
      && (RightAbout(recorded, Exec(rt, body, env).value[id])
          <==> Harmless(rt, stmt, id, Exec(rt, before, env).value, recorded.text))
  {
    var upto := before + [stmt];
    LaterKeeps(rt, upto, after, id, env);
    assert upto[..|upto| - 1] == before;
    assert before[..|before|] == before;
    ModuleSoundUpTo(rt, before, env, |before|);
    var mid, recorded := Exec(rt, before, env).value, ModuleConstants(before)[id];
    assert mid[id] == Text(recorded.text);
    if stmt.AugAdd? {
      var more := Eval(rt, stmt.value, mid);
      assert Eval(rt, Name(id), mid) == Some(Text(recorded.text));
      assert Exec(rt, upto, env).value[id] == Text(recorded.text + more.value.text);
      if more.value.text == "" { assert recorded.text + "" == recorded.text; }
      else { assert |recorded.text + more.value.text| != |recorded.text|; }
    }
  }

  /** The smallest module with an addition: two literals. */
  lemma AugmentedAssignmentMissed(rt: Runtime, id: string, a: string, b: string)
    ensures var body := [Assign(id, Str(a)), AugAdd(id, Str(b))];
      && ModuleConstants(body) == map[id := Recovered(a, false)]
      && Exec(rt, body, map[]) == Some(map[id := Text(a + b)])
      && (Consistent(ModuleConstants(body), Exec(rt, body, map[]).value) <==> b == "")
  {
    var body := [Assign(id, Str(a)), AugAdd(id, Str(b))];
    assert body[..1] == [Assign(id, Str(a))];
    AssignedOnce(rt, id, a);
    AddedTo(rt, id, a, b);
    var known, after := ModuleConstants(body), Exec(rt, body, map[]).value;
    assert id in known && known[id] == Recovered(a, false) && after[id] == Text(a + b);
    assert Consistent(known, after) <==> RightAbout(known[id], after[id]);
    if b != "" { assert |a + b| != |a|; } else { assert a + b == a; }
  }

  lemma AssignedOnce(rt: Runtime, id: string, a: string)
    ensures ModuleConstants([Assign(id, Str(a))]) == map[id := Recovered(a, false)]
    ensures Exec(rt, [Assign(id, Str(a))], map[]) == Some(map[id := Text(a)])
  {
    var body := [Assign(id, Str(a))];
    assert body[..0] == [];
    assert Exec(rt, body[..0], map[]) == Some(map[]);
  }

  lemma AddedTo(rt: Runtime, id: string, a: string, b: string)
    ensures ExecOne(rt, AugAdd(id, Str(b)), map[id := Text(a)]) == Some(map[id := Text(a + b)])
  {
    var once: Env := map[id := Text(a)];
    assert Eval(rt, Name(id), once) == Some(Text(a)) && Eval(rt, Str(b), once) == Some(Text(b));
    assert once[id := Text(a + b)] == map[id := Text(a + b)];
  }

  // ---- strip and dedent ---------------------------------------------------------------------------------

  lemma {:induction false} StripLeftStarts(s: string, chars: string)
    ensures StripLeft(s, chars) != "" ==> StripLeft(s, chars)[0] !in chars
  {
    if s != "" && s[0] in chars { StripLeftStarts(s[1..], chars); }
  }

  lemma {:induction false} StripRightStarts(s: string, chars: string)
    ensures StripRight(s, chars) != "" ==> s != "" && StripRight(s, chars)[0] == s[0]
  {
    if s != "" && s[|s| - 1] in chars { StripRightStarts(s[..|s| - 1], chars); }
  }

  /** What is left of stripping never starts with a stripped character. */
  lemma StripStarts(s: string, chars: string)
    ensures Strip(s, chars) != "" ==> Strip(s, chars)[0] !in chars
    ensures chars == "" ==> Strip(s, chars) == s
  {
    StripLeftStarts(s, chars);
    StripRightStarts(StripLeft(s, chars), chars);
  }

  /**
   * `s.strip(chars)` is recovered as `chars`, marked exact if chars is: right if and only if
   * both strings are empty.
   */
  lemma StripTakenForItsArgument(rt: Runtime, receiver: Expr, arg: Expr, constants: Constants, env: Env, s: string,
                                 chars: string)
    requires Eval(rt, receiver, env) == Some(Text(s)) && Eval(rt, arg, env) == Some(Text(chars))
    requires Plain(arg) && RightOn(Names(arg), constants, env) && !StaticSql(arg, constants).dynamic
    ensures var call := Call(Attr(receiver, "strip"), [arg]);
      && StaticSql(call, constants) == Recovered(chars, false)
      && Eval(rt, call, env) == Some(Text(Strip(s, chars)))
      && (RightAbout(StaticSql(call, constants), Text(Strip(s, chars))) <==> s == "" && chars == "")
  {
    ExpressionSound(rt, arg, constants, env);
    MethodValue(rt, receiver, "strip", arg, env, Strip(s, chars));
    StripStarts(s, chars);
    assert forall i :: 0 <= i < |chars| ==> chars[i] in chars;
  }

  /** strip takes characters of the set off both ends, and leaves none there. */
  lemma {:induction false} StripRightIs(s: string, chars: string)
    ensures var t := StripRight(s, chars);
      && t <= s && (forall i :: |t| <= i < |s| ==> s[i] in chars) && (t != "" ==> t[|t| - 1] !in chars)
  {
    if s != "" && s[|s| - 1] in chars { StripRightIs(s[..|s| - 1], chars); }
  }

  lemma {:induction false} StripLeftIs(s: string, chars: string) returns (front: string)
    ensures var t := StripLeft(s, chars);
      && s == front + t && (forall i :: 0 <= i < |front| ==> front[i] in chars) && (t != "" ==> t[0] !in chars)
  {
    front := "";
    if s != "" && s[0] in chars {
      var more := StripLeftIs(s[1..], chars);
      front := [s[0]] + more;
      assert s == [s[0]] + s[1..];
    }
  }

  lemma StripIs(s: string, chars: string) returns (front: string, back: string)
    ensures var t := Strip(s, chars);
      && s == front + t + back && (t != "" ==> t[0] !in chars && t[|t| - 1] !in chars)
      && (forall i :: 0 <= i < |front| ==> front[i] in chars) && (forall i :: 0 <= i < |back| ==> back[i] in chars)
  {
    front := StripLeftIs(s, chars);
    var left := StripLeft(s, chars);
    StripRightIs(left, chars);
    back := left[|Strip(s, chars)|..];
  }

  /** A statement with its semicolon stripped is recovered as the semicolon. */
  lemma SemicolonRecovered(rt: Runtime)
    ensures var call := Call(Attr(Str("SELECT 1;"), "strip"), [Str(";")]);
      StaticSql(call, map[]) == Recovered(";", false) && Eval(rt, call, map[]) != Some(Text(";"))
  {
    StripTakenForItsArgument(rt, Str("SELECT 1;"), Str(";"), map[], map[], "SELECT 1;", ";");
  }

  lemma {:induction false} JoinOfLines(text: string)
    ensures JoinLines(LinesOf(text)) == text
  {
    if text != "" {
      JoinOfLines(text[1..]);
      var rest := LinesOf(text[1..]);
      if text[0] == '\n' {
        assert ([""] + rest)[1..] == rest;
        assert text == "\n" + text[1..];
      } else {
        FirstLineGrows(text[0], rest);
        assert text == [text[0]] + text[1..];
      }
    }
  }

  lemma FirstLineGrows(c: char, lines: seq<string>)
    requires lines != []
    ensures JoinLines([[c] + lines[0]] + lines[1..]) == [c] + JoinLines(lines)
  {
    var longer := [[c] + lines[0]] + lines[1..];
    assert longer[1..] == lines[1..];
    if |lines| > 1 {
      assert [c] + lines[0] + "\n" + JoinLines(lines[1..]) == [c] + (lines[0] + "\n" + JoinLines(lines[1..]));
    }
  }

  /** Joining no longer lines gives no longer a text, and as long a text only from as long lines. */
  lemma {:induction false} JoinShrinks(a: seq<string>, b: seq<string>)
    requires |a| == |b| > 0 && forall i :: 0 <= i < |a| ==> |a[i]| <= |b[i]|
    ensures |JoinLines(a)| <= |JoinLines(b)|
    ensures |JoinLines(a)| == |JoinLines(b)| ==> forall i :: 0 <= i < |a| ==> |a[i]| == |b[i]|
  {
    if |a| > 1 {
      JoinShrinks(a[1..], b[1..]);
      if |JoinLines(a)| == |JoinLines(b)| {
        forall i | 0 <= i < |a| ensures |a[i]| == |b[i]| {
          if i > 0 { assert |a[1..][i - 1]| == |b[1..][i - 1]|; }
        }
      }
    }
  }

  lemma {:induction false} IndentStarts(line: string)
    ensures Indent(line) <= line
    ensures Indent(line) != "" <==> line != "" && IsIndent(line[0])
  {
    if line != "" && IsIndent(line[0]) { IndentStarts(line[1..]); }
  }

  lemma {:induction false} CommonPrefixIs(a: string, b: string)
    ensures CommonPrefix(a, b) <= a && CommonPrefix(a, b) <= b
    ensures CommonPrefix(a, b) != "" <==> a != "" && b != "" && a[0] == b[0]
  {
    if a != "" && b != "" && a[0] == b[0] { CommonPrefixIs(a[1..], b[1..]); }
  }

  predicate BeginsWith(line: string, c: char) {
    line != "" && line[0] == c
  }

  /** The margin starts every line that is not blank. */
  lemma {:induction false} MarginStarts(lines: seq<string>, i: nat)
    requires i < |lines| && !Blank(lines[i])
    ensures Margin(lines).Some? && Margin(lines).value <= Indent(lines[i])
  {
    var init, last := lines[..|lines| - 1], lines[|lines| - 1];
    if i < |init| { MarginStarts(init, i); }
    if !Blank(last) && Margin(init).Some? { CommonPrefixIs(Margin(init).value, Indent(last)); }
  }

  /** There is a margin exactly when the lines that are not blank all begin with the same blank. */
  lemma {:induction false} MarginIff(lines: seq<string>)
    ensures Margin(lines).Some? <==> exists i :: 0 <= i < |lines| && !Blank(lines[i])
    ensures Margin(lines).Some? && Margin(lines).value != "" ==>
      IsIndent(Margin(lines).value[0]) && AllBegin(lines, Margin(lines).value[0])
    ensures forall c :: IsIndent(c) && Margin(lines).Some? && AllBegin(lines, c) ==> BeginsWith(Margin(lines).value, c)
  {
    if lines != [] {
      var init, last := lines[..|lines| - 1], lines[|lines| - 1];
      MarginIff(init);
      IndentStarts(last);
      if Margin(init).Some? { CommonPrefixIs(Margin(init).value, Indent(last)); }
      forall c | IsIndent(c) && Margin(lines).Some? && AllBegin(lines, c) ensures BeginsWith(Margin(lines).value, c) {
        assert forall i :: 0 <= i < |init| && !Blank(init[i]) ==> BeginsWith(lines[i], c);
        assert AllBegin(init, c);
      }
    }
  }

  /** No line is made of blanks alone, and the other lines do not all begin with the same blank. */
  predicate Tidy(text: string) {
    var lines := LinesOf(text);
    && (forall i :: 0 <= i < |lines| && Blank(lines[i]) ==> lines[i] == "")
    && !((exists i :: 0 <= i < |lines| && !Blank(lines[i]))
         && (AllBegin(lines, ' ') || AllBegin(lines, '\t')))
  }

  predicate AllBegin(lines: seq<string>, c: char) {
    forall i :: 0 <= i < |lines| && !Blank(lines[i]) ==> BeginsWith(lines[i], c)
  }

  lemma MarginEmptyIff(lines: seq<string>)
    ensures MarginOf(lines) == "" <==>
      !((exists i :: 0 <= i < |lines| && !Blank(lines[i])) && (AllBegin(lines, ' ') || AllBegin(lines, '\t')))
  {
    MarginIff(lines);
    assert Margin(lines).Some? && AllBegin(lines, ' ') ==> BeginsWith(MarginOf(lines), ' ');
    assert Margin(lines).Some? && AllBegin(lines, '\t') ==> BeginsWith(MarginOf(lines), '\t');
  }

  lemma LineCut(lines: seq<string>, i: nat)
    requires i < |lines|
    ensures var cut := DedentLine(lines[i], MarginOf(lines));
      && |cut| <= |lines[i]| && (|cut| == |lines[i]| ==> cut == lines[i])
      && (cut == lines[i] <==> if Blank(lines[i]) then lines[i] == "" else MarginOf(lines) == "")
  {
    if !Blank(lines[i]) {
      MarginStarts(lines, i);
      IndentStarts(lines[i]);
    }
  }

  lemma CutsNothing(lines: seq<string>)
    requires lines != []
    ensures JoinLines(DedentLines(lines, MarginOf(lines))) == JoinLines(lines)
       <==> forall i :: 0 <= i < |lines| ==> DedentLine(lines[i], MarginOf(lines)) == lines[i]
  {
    var cut := DedentLines(lines, MarginOf(lines));
    forall i | 0 <= i < |lines| ensures |cut[i]| <= |lines[i]| && (|cut[i]| == |lines[i]| ==> cut[i] == lines[i]) {
      LineCut(lines, i);
    }
    JoinShrinks(cut, lines);
    if forall i :: 0 <= i < |lines| ==> DedentLine(lines[i], MarginOf(lines)) == lines[i] { assert cut == lines; }
  }

  /** Cutting the margin off every line changes no line exactly if the blank lines are empty and so is the margin. */
  lemma CutsNoLine(lines: seq<string>)
    ensures (forall i :: 0 <= i < |lines| ==> DedentLine(lines[i], MarginOf(lines)) == lines[i])
       <==> (forall i :: 0 <= i < |lines| && Blank(lines[i]) ==> lines[i] == "") && MarginOf(lines) == ""
  {
    forall i | 0 <= i < |lines|
      ensures DedentLine(lines[i], MarginOf(lines)) == lines[i]
         <==> if Blank(lines[i]) then lines[i] == "" else MarginOf(lines) == ""
    {
      LineCut(lines, i);
    }
    if forall i :: 0 <= i < |lines| ==> Blank(lines[i]) { MarginEmptyIff(lines); }
  }

  /** m is made of spaces and tabs and starts every line that is not blank. */
  predicate SharedIndent(lines: seq<string>, m: string) {
    && (forall k :: 0 <= k < |m| ==> m[k] == ' ' || m[k] == '\t')
    && forall i :: 0 <= i < |lines| && !Blank(lines[i]) ==> m <= lines[i]
  }

  lemma {:induction false} LongestIndent(line: string, m: string)
    requires m <= line && Blank(m)
    ensures m <= Indent(line)
  {
    if m != "" { LongestIndent(line[1..], m[1..]); }
  }

  lemma {:induction false} LongestPrefix(a: string, b: string, m: string)
    requires m <= a && m <= b
    ensures m <= CommonPrefix(a, b)
  {
    if m != "" { LongestPrefix(a[1..], b[1..], m[1..]); }
  }

  lemma {:induction false} IndentBlank(line: string)
    ensures Blank(Indent(line))
  {
    if line != "" && IsIndent(line[0]) { IndentBlank(line[1..]); }
  }

  lemma {:induction false} MarginLongest(lines: seq<string>, m: string)
    requires SharedIndent(lines, m)
    ensures Margin(lines).Some? ==> m <= Margin(lines).value
  {
    if lines != [] {
      var init, last := lines[..|lines| - 1], lines[|lines| - 1];
      assert SharedIndent(init, m) by {
        assert forall i :: 0 <= i < |init| ==> init[i] == lines[i];
      }
      MarginLongest(init, m);
      if !Blank(last) {
        LongestIndent(last, m);
        if Margin(init).Some? { LongestPrefix(Margin(init).value, Indent(last), m); }
      }
    }
  }

  /** The margin is itself a shared indent. */
  lemma MarginShared(lines: seq<string>)
    ensures SharedIndent(lines, MarginOf(lines))
  {
    MarginIff(lines);
    forall i | 0 <= i < |lines| && !Blank(lines[i]) ensures MarginOf(lines) <= lines[i] && Blank(MarginOf(lines)) {
      MarginStarts(lines, i);
      IndentStarts(lines[i]);
      IndentBlank(lines[i]);
    }
  }

  /** margin is the longest indent the lines that are not blank share. */
  ghost predicate IsMargin(lines: seq<string>, margin: string) {
    && (exists i :: 0 <= i < |lines| && !Blank(lines[i]))
    && SharedIndent(lines, margin)
    && forall m :: SharedIndent(lines, m) ==> |m| <= |margin|
  }

  lemma MarginIs(lines: seq<string>, margin: string)
    requires IsMargin(lines, margin)
    ensures MarginOf(lines) == margin
  {
    MarginIff(lines);
    MarginShared(lines);
    MarginLongest(lines, margin);
  }

  /** A dedented text: every blank line emptied, and the longest shared indent taken off the others. */
  lemma DedentIs(text: string, margin: string, cut: seq<string>)
    requires IsMargin(LinesOf(text), margin) && |cut| == |LinesOf(text)|
    requires forall i :: 0 <= i < |cut| ==>
      if Blank(LinesOf(text)[i]) then cut[i] == "" else LinesOf(text)[i] == margin + cut[i]
    ensures Dedent(text) == JoinLines(cut)
  {
    var lines := LinesOf(text);
    MarginIs(lines, margin);
    forall i | 0 <= i < |cut| ensures DedentLine(lines[i], margin) == cut[i] {}
    assert DedentLines(lines, margin) == cut;
  }

  /** Dedenting changes a text unless it is tidy. */
  lemma DedentKeeps(text: string)
    ensures Dedent(text) == text <==> Tidy(text)
  {
    var lines := LinesOf(text);
    JoinOfLines(text);
    CutsNothing(lines);
    CutsNoLine(lines);
    MarginEmptyIff(lines);
  }

  /** `textwrap.dedent(e)` is recovered as e, marked exact if e is: right if and only if there is nothing to dedent. */
  lemma DedentTakenForItsArgument(rt: Runtime, receiver: Expr, arg: Expr, constants: Constants, env: Env, text: string)
    requires Eval(rt, receiver, env) == Some(Textwrap) && Eval(rt, arg, env) == Some(Text(text))
    requires Plain(arg) && RightOn(Names(arg), constants, env) && !StaticSql(arg, constants).dynamic
    ensures var call := Call(Attr(receiver, "dedent"), [arg]);
      && StaticSql(call, constants) == Recovered(text, false)
      && Eval(rt, call, env) == Some(Text(Dedent(text)))
      && (RightAbout(StaticSql(call, constants), Text(Dedent(text))) <==> Tidy(text))
  {
    ExpressionSound(rt, arg, constants, env);
    MethodValue(rt, receiver, "dedent", arg, env, Dedent(text));
    DedentKeeps(text);
  }

  lemma MethodValue(rt: Runtime, receiver: Expr, attr: string, arg: Expr, env: Env, result: string)
    requires attr in {"strip", "dedent"} && Eval(rt, receiver, env).Some? && Eval(rt, arg, env).Some?
    requires MethodResult(Eval(rt, receiver, env).value, attr, Eval(rt, arg, env).value) == Some(result)
    ensures Eval(rt, Call(Attr(receiver, attr), [arg]), env) == Some(Text(result))
  {
  }

  // ---- format and join ----------------------------------------------------------------------------------

  /** No part of the text reads as the mark for a hole. */
  predicate HoleFree(text: string) {
    forall i :: 0 <= i <= |text| ==> !(HOLE <= text[i..])
  }

  lemma NoOverlap(text: string)
    requires text != "" && HoleFree(text)
    ensures !(HOLE <= text + HOLE)
  {
    assert text[0..] == text;
    if |text| < |HOLE| {
      assert (text + HOLE)[|text|] == '{';
    } else {
      assert (text + HOLE)[..|HOLE|] == text[..|HOLE|];
    }
  }

  /** A text with a hole after it stands for the strings that begin with it. */
  lemma {:induction false} FillsThenHole(text: string, v: string)
    requires HoleFree(text)
    ensures Fills(text + HOLE, v) <==> text <= v
  {
    if text == "" {
      assert text + HOLE == HOLE;
      FillsHole(v);
    } else {
      NoOverlap(text);
      assert (text + HOLE)[1..] == text[1..] + HOLE;
      assert forall i :: 0 <= i <= |text[1..]| ==> text[1..][i..] == text[i + 1..];
      if v != "" { FillsThenHole(text[1..], v[1..]); }
    }
  }

  /**
   * `s.format(..)` and `s.join(..)` are recovered as s with a hole after it, which is a
   * template of the run-time string if and only if that begins with s.
   */
  lemma CallTakenForPrefix(rt: Runtime, receiver: Expr, attr: string, args: seq<Expr>, constants: Constants, env: Env,
                           s: string, v: string)
    requires attr in {"format", "join"} && args != []
    requires StaticSql(receiver, constants).text == s && HoleFree(s)
    requires Eval(rt, Call(Attr(receiver, attr), args), env) == Some(Text(v))
    ensures var call := Call(Attr(receiver, attr), args);
      && StaticSql(call, constants) == Recovered(s + HOLE, true)
      && (RightAbout(StaticSql(call, constants), Eval(rt, call, env).value) <==> s <= v)
  {
    FillsThenHole(s, v);
  }

  /** `", ".join(..)` of two columns is no filling of what it is recovered as. */
  lemma JoinedColumnsMisread(rt: Runtime, columns: Expr, env: Env)
    requires Eval(rt, Call(Attr(Str(", "), "join"), [columns]), env) == Some(Text("id, name"))
    ensures var call := Call(Attr(Str(", "), "join"), [columns]);
      && StaticSql(call, map[]) == Recovered(", " + HOLE, true)
      && !RightAbout(StaticSql(call, map[]), Eval(rt, call, env).value)
  {
    assert HoleFree(", ");
    CallTakenForPrefix(rt, Str(", "), "join", [columns], map[], env, ", ", "id, name");
    assert "id, name"[0] == 'i';
  }

  /** An f-string keeps its literal parts and marks what it formats. */
  lemma FormattedPart(a: string, value: Expr, b: string, constants: Constants)
    ensures StaticSql(JoinedStr([Literal(a)] + [Formatted(value)] + [Literal(b)]), constants)
         == Recovered(a + "{dynamic}" + b, true)
  {
    var first: seq<Piece> := [Literal(a)];
    PiecesNext([], Literal(a));
    PiecesNext(first, Formatted(value));
    PiecesNext(first + [Formatted(value)], Literal(b));
    assert [] + first == first && "" + a == a;
  }

  lemma PiecesNext(pieces: seq<Piece>, last: Piece)
    ensures var before := PiecesText(pieces);
      PiecesText(pieces + [last]) == match last
                                     case Literal(text) => Recovered(before.text + text, before.dynamic)
                                     case Formatted(_) => Recovered(before.text + "{dynamic}", true)
  {
    assert (pieces + [last])[..|pieces|] == pieces;
  }
}
