/** The dashboard formula evaluator over exact numbers.

    `leaf` gives the value of a token -- trimmed of the space around it and then read as a literal or
    as a field path into the document -- or none.  Formulas are described by their concrete syntax,
    blanks and parentheses included; the parser is compared with the texts and the values of these
    trees. */
module Formula {

  import opened Wrappers

  type Leaf = string -> Option<real>

  predicate IsBlank(c: char) { c == ' ' || c == '\t' }

  predicate IsDelimiter(c: char) { c in " +-*/()" }

  type Blanks = s: string | forall c | c in s :: IsBlank(c) witness ""

  /** A token as it stands in a formula, without the blanks around it. */
  type Token = s: string | IsToken(s) witness "x"

  predicate IsToken(s: string) {
    s != "" && !IsBlank(s[0]) && s[|s| - 1] != '\t' && forall c | c in s :: !IsDelimiter(c)
  }

  datatype Sign = PlusSign | MinusSign
  datatype Scale = Times | Divide

  datatype Factor =
    | Atom(before: Blanks, token: Token)
    | Signed(before: Blanks, sign: Sign, operand: Factor)
    | Parens(before: Blanks, inner: Expr, after: Blanks)

  datatype Term =
    | OneFactor(factor: Factor)
    | Scaled(left: Term, before: Blanks, op: Scale, right: Factor)

  datatype Expr =
    | OneTerm(term: Term)
    | Summed(first: Expr, before: Blanks, op: Sign, second: Term)

  // ---------------------------------------------------------------- texts and values

  function SignText(sign: Sign): string { if sign.PlusSign? then "+" else "-" }

  function ScaleText(op: Scale): string { if op.Times? then "*" else "/" }

  function FactorText(f: Factor): string {
    match f
    case Atom(before, token) => before + token
    case Signed(before, sign, operand) => before + (SignText(sign) + FactorText(operand))
    case Parens(before, inner, after) => before + ("(" + (ExprText(inner) + (after + ")")))
  }

  function TermText(t: Term): string {
    match t
    case OneFactor(factor) => FactorText(factor)
    case Scaled(left, before, op, right) => TermText(left) + (before + (ScaleText(op) + FactorText(right)))
  }

  function ExprText(e: Expr): string {
    match e
    case OneTerm(term) => TermText(term)
    case Summed(first, before, op, second) => ExprText(first) + (before + (SignText(op) + TermText(second)))
  }

  function Apply(sign: Sign, value: real): real { if sign.PlusSign? then value else 0.0 - value }

  function Combine(left: Option<real>, op: Sign, right: Option<real>): Option<real> {
    if left.None? || right.None? then None else Some(left.value + Apply(op, right.value))
  }

  function ScaleBy(left: Option<real>, op: Scale, right: Option<real>): Option<real> {
    if left.None? || right.None? || (op.Divide? && right.value == 0.0) then None
    else Some(if op.Times? then left.value * right.value else left.value / right.value)
  }

  function FactorValue(leaf: Leaf, f: Factor): Option<real> {
    match f
    case Atom(_, token) => leaf(token)
    case Signed(_, sign, operand) =>
      var v := FactorValue(leaf, operand);
      if v.None? then None else Some(Apply(sign, v.value))
    case Parens(_, inner, _) => ExprValue(leaf, inner)
  }

  function TermValue(leaf: Leaf, t: Term): Option<real> {
    match t
    case OneFactor(factor) => FactorValue(leaf, factor)
    case Scaled(left, _, op, right) => ScaleBy(TermValue(leaf, left), op, FactorValue(leaf, right))
  }

  function ExprValue(leaf: Leaf, e: Expr): Option<real> {
    match e
    case OneTerm(term) => TermValue(leaf, term)
    case Summed(first, _, op, second) => Combine(ExprValue(leaf, first), op, TermValue(leaf, second))
  }

  // ---------------------------------------------------------------- the parser as functions on what is left

  datatype Parse = Failed | Got(value: real, rest: string)

  function Skip(s: string): (rest: string)
    ensures |rest| <= |s| && (rest != "" ==> !IsBlank(rest[0]))
  {
    if s != "" && IsBlank(s[0]) then Skip(s[1..]) else s
  }

  /** The length of the longest beginning without delimiters. */
  function RunLength(s: string): (n: nat)
    ensures n <= |s| && (n < |s| ==> IsDelimiter(s[n])) && forall i | 0 <= i < n :: !IsDelimiter(s[i])
  {
    if s == "" || IsDelimiter(s[0]) then 0 else 1 + RunLength(s[1..])
  }

  function TrimTabs(s: string): (token: string)
    ensures token <= s && (token != "" ==> token[|token| - 1] != '\t')
    ensures forall i | |token| <= i < |s| :: s[i] == '\t'
  {
    if s != "" && s[|s| - 1] == '\t' then TrimTabs(s[..|s| - 1]) else s
  }

  function ParseAtom(leaf: Leaf, s: string): (r: Parse)
    ensures r.Got? ==> |r.rest| < |s|
  {
    var run := RunLength(s);
    var token := TrimTabs(s[..run]);
    if token == "" || leaf(token).None? then Failed else Got(leaf(token).value, s[run..])
  }

  function ParseFactor(leaf: Leaf, s: string): (r: Parse)
    ensures r.Got? ==> |r.rest| < |s|
    decreases |s|, 1
  {
    FactorBody(leaf, Skip(s))
  }

  /** `factor` after its leading blanks. */
  function FactorBody(leaf: Leaf, s: string): (r: Parse)
    ensures r.Got? ==> |r.rest| < |s|
    decreases |s|, 0
  {
    if s == "" then Failed
    else if s[0] == '+' || s[0] == '-' then
      var v := ParseFactor(leaf, s[1..]);
      if v.Failed? then Failed else Got(Apply(if s[0] == '+' then PlusSign else MinusSign, v.value), v.rest)
    else if s[0] == '(' then
      var v := ParseExpr(leaf, s[1..]);
      if v.Failed? then Failed else Closed(v.value, Skip(v.rest))
    else ParseAtom(leaf, s)
  }

  function Closed(value: real, s: string): (r: Parse)
    ensures r.Got? ==> |r.rest| < |s|
  {
    if s == "" || s[0] != ')' then Failed else Got(value, s[1..])
  }

  function ParseTerm(leaf: Leaf, s: string): (r: Parse)
    ensures r.Got? ==> |r.rest| < |s|
    decreases |s|, 4
  {
    var v := ParseFactor(leaf, s);
    if v.Failed? then Failed else TermRest(leaf, Some(v.value), v.rest)
  }

  /** The loop of `term` with the value so far; none once a step failed. */
  function TermRest(leaf: Leaf, left: Option<real>, s: string): (r: Parse)
    ensures r.Got? ==> |r.rest| <= |s|
    decreases |s|, 3
  {
    if left.None? then Failed else TermTurn(leaf, left.value, Skip(s))
  }

  function TermTurn(leaf: Leaf, left: real, s: string): (r: Parse)
    ensures r.Got? ==> |r.rest| <= |s|
    decreases |s|, 2
  {
    if s == "" || (s[0] != '*' && s[0] != '/') then Got(left, s)
    else
      var right := ParseFactor(leaf, s[1..]);
      if right.Failed? then Failed
      else TermRest(leaf, ScaleBy(Some(left), if s[0] == '*' then Times else Divide, Some(right.value)), right.rest)
  }

  function ParseExpr(leaf: Leaf, s: string): (r: Parse)
    ensures r.Got? ==> |r.rest| < |s|
    decreases |s|, 7
  {
    var v := ParseTerm(leaf, s);
    if v.Failed? then Failed else ExprRest(leaf, Some(v.value), v.rest)
  }

  /** The loop of `expression`. */
  function ExprRest(leaf: Leaf, left: Option<real>, s: string): (r: Parse)
    ensures r.Got? ==> |r.rest| <= |s|
    decreases |s|, 6
  {
    if left.None? then Failed else ExprTurn(leaf, left.value, Skip(s))
  }

  function ExprTurn(leaf: Leaf, left: real, s: string): (r: Parse)
    ensures r.Got? ==> |r.rest| <= |s|
    decreases |s|, 5
  {
    if s == "" || (s[0] != '+' && s[0] != '-') then Got(left, s)
    else
      var right := ParseTerm(leaf, s[1..]);
      if right.Failed? then Failed
      else ExprRest(leaf, Combine(Some(left), if s[0] == '+' then PlusSign else MinusSign, Some(right.value)),
                    right.rest)
  }

  /** The value of a text that is a formula as a whole. */
  function Parsed(leaf: Leaf, s: string): Option<real> {
    var v := ParseExpr(leaf, s);
    if v.Failed? || Skip(v.rest) != "" then None else Some(v.value)
  }

  // ---------------------------------------------------------------- texts evaluate to their values

  /** What may follow a complete operand: blanks and then the end, an operator or `)`. */
  predicate Ends(s: string) {
    Skip(s) == "" || Skip(s)[0] in "+-*/)"
  }

  predicate EndsSum(s: string) {
    Skip(s) == "" || Skip(s)[0] in "+-)"
  }

  lemma {:induction false} SkipBlanks(blanks: Blanks, s: string)
    ensures Skip(blanks + s) == Skip(s)
  {
    if blanks != "" {
      assert (blanks + s)[1..] == blanks[1..] + s && blanks[0] in blanks;
      assert forall c | c in blanks[1..] :: c in blanks;
      SkipBlanks(blanks[1..], s);
    } else {
      assert blanks + s == s;
    }
  }

  lemma SkipTo(blanks: Blanks, s: string)
    requires s != "" && !IsBlank(s[0])
    ensures Skip(blanks + s) == s
  {
    SkipBlanks(blanks, s);
  }

  /** What follows a token adds only tabs to the run of characters that the parser takes. */
  lemma {:induction false} RunOfTabs(s: string)
    requires Ends(s)
    ensures var run := RunLength(s); (forall i | 0 <= i < run :: s[i] == '\t') && Skip(s[run..]) == Skip(s)
  {
    if s != "" && s[0] == '\t' {
      RunOfTabs(s[1..]);
      var run := RunLength(s);
      assert s[1..][run - 1..] == s[run..];
      assert forall i | 1 <= i < run :: s[i] == s[1..][i - 1];
    }
  }

  lemma {:induction false} RunThenTabs(token: string, s: string)
    requires (forall c | c in token :: !IsDelimiter(c)) && Ends(s)
    ensures RunLength(token + s) == |token| + RunLength(s)
    decreases |token|
  {
    if token != "" {
      assert (token + s)[1..] == token[1..] + s && token[0] in token;
      assert forall c | c in token[1..] :: c in token;
      RunThenTabs(token[1..], s);
    } else {
      assert token + s == s;
    }
  }

  lemma {:induction false} TrimGivesToken(token: Token, s: string)
    requires token <= s && forall i | |token| <= i < |s| :: s[i] == '\t'
    ensures TrimTabs(s) == token
    decreases |s|
  {
    if |s| > |token| {
      TrimGivesToken(token, s[..|s| - 1]);
    } else {
      assert s == token;
    }
  }

  lemma AtomComplete(leaf: Leaf, token: Token, s: string)
    requires Ends(s)
    ensures var r := ParseAtom(leaf, token + s);
            if leaf(token).None? then r.Failed? else r.Got? && r.value == leaf(token).value && Skip(r.rest) == Skip(s)
  {
    RunThenTabs(token, s);
    RunOfTabs(s);
    var run := RunLength(token + s);
    assert token <= (token + s)[..run] && (token + s)[run..] == s[RunLength(s)..];
    assert forall i | |token| <= i < run :: (token + s)[i] == s[i - |token|];
    TrimGivesToken(token, (token + s)[..run]);
  }

  /** The parser takes the text of `f` and returns its value, or fails if it has none. */
  ghost predicate FactorParses(leaf: Leaf, f: Factor, s: string) {
    var r := ParseFactor(leaf, FactorText(f) + s);
    if FactorValue(leaf, f).None? then r.Failed?
    else r.Got? && r.value == FactorValue(leaf, f).value && Skip(r.rest) == Skip(s)
  }

  lemma AtomParses(leaf: Leaf, before: Blanks, token: Token, s: string)
    requires Ends(s)
    ensures FactorParses(leaf, Atom(before, token), s)
  {
    assert FactorText(Atom(before, token)) + s == before + (token + s);
    assert token[0] in token;
    SkipTo(before, token + s);
    AtomComplete(leaf, token, s);
  }

  lemma SignedParses(leaf: Leaf, before: Blanks, sign: Sign, operand: Factor, s: string)
    requires FactorParses(leaf, operand, s)
    ensures FactorParses(leaf, Signed(before, sign, operand), s)
  {
    var body := SignText(sign) + (FactorText(operand) + s);
    assert FactorText(Signed(before, sign, operand)) + s == before + body;
    SkipTo(before, body);
    assert body[1..] == FactorText(operand) + s;
  }

  lemma ParensParse(leaf: Leaf, before: Blanks, inner: Expr, after: Blanks, s: string)
    requires var close := after + (")" + s);
             ParseExpr(leaf, ExprText(inner) + close) == ExprRest(leaf, ExprValue(leaf, inner), close)
    ensures FactorParses(leaf, Parens(before, inner, after), s)
  {
    var close := after + (")" + s);
    var body := "(" + (ExprText(inner) + close);
    assert FactorText(Parens(before, inner, after)) + s == before + body;
    SkipTo(before, body);
    assert body[1..] == ExprText(inner) + close;
    SkipTo(after, ")" + s);
    assert (")" + s)[1..] == s;
  }

  lemma {:induction false} FactorComplete(leaf: Leaf, f: Factor, s: string)
    requires Ends(s)
    ensures FactorParses(leaf, f, s)
    decreases f
  {
    match f
    case Atom(before, token) =>
      AtomParses(leaf, before, token, s);
    case Signed(before, sign, operand) =>
      FactorComplete(leaf, operand, s);
      SignedParses(leaf, before, sign, operand, s);
    case Parens(before, inner, after) =>
      SkipTo(after, ")" + s);
      ExprComplete(leaf, inner, after + (")" + s));
      ParensParse(leaf, before, inner, after, s);
  }

  lemma {:induction false} TermComplete(leaf: Leaf, t: Term, s: string)
    requires Ends(s)
    ensures ParseTerm(leaf, TermText(t) + s) == TermRest(leaf, TermValue(leaf, t), s)
    decreases t
  {
    match t
    case OneFactor(factor) =>
      FactorComplete(leaf, factor, s);
    case Scaled(left, before, op, right) =>
      var tail := ScaleText(op) + (FactorText(right) + s);
      assert TermText(t) + s == TermText(left) + (before + tail);
      SkipTo(before, tail);
      TermComplete(leaf, left, before + tail);
      FactorComplete(leaf, right, s);
      TermTurns(leaf, TermValue(leaf, left), op, right, s);
  }

  /** One turn of the loop of `term`, given what the parser makes of the operand. */
  lemma TermTurns(leaf: Leaf, left: Option<real>, op: Scale, right: Factor, s: string)
    requires FactorParses(leaf, right, s)
    ensures var tail := ScaleText(op) + (FactorText(right) + s);
            left.Some? ==>
              TermTurn(leaf, left.value, tail) == TermRest(leaf, ScaleBy(left, op, FactorValue(leaf, right)), s)
  {
    var tail := ScaleText(op) + (FactorText(right) + s);
    assert tail[1..] == FactorText(right) + s;
  }

  lemma {:induction false} ExprComplete(leaf: Leaf, e: Expr, s: string)
    requires EndsSum(s)
    ensures ParseExpr(leaf, ExprText(e) + s) == ExprRest(leaf, ExprValue(leaf, e), s)
    decreases e
  {
    match e
    case OneTerm(term) =>
      TermComplete(leaf, term, s);
    case Summed(first, before, op, second) =>
      var tail := SignText(op) + (TermText(second) + s);
      assert ExprText(e) + s == ExprText(first) + (before + tail);
      SkipTo(before, tail);
      ExprComplete(leaf, first, before + tail);
      TermComplete(leaf, second, s);
      ExprTurns(leaf, ExprValue(leaf, first), op, second, s);
  }

  lemma ExprTurns(leaf: Leaf, left: Option<real>, op: Sign, right: Term, s: string)
    requires EndsSum(s) && ParseTerm(leaf, TermText(right) + s) == TermRest(leaf, TermValue(leaf, right), s)
    ensures var tail := SignText(op) + (TermText(right) + s);
            left.Some? ==>
              ExprTurn(leaf, left.value, tail) == ExprRest(leaf, Combine(left, op, TermValue(leaf, right)), s)
  {
    var tail := SignText(op) + (TermText(right) + s);
    assert tail[1..] == TermText(right) + s;
  }

  /** Parsing the text of a formula gives its value, and fails exactly when it has none. */
  lemma TextParses(leaf: Leaf, e: Expr, after: Blanks)
    ensures Parsed(leaf, ExprText(e) + after) == ExprValue(leaf, e)
  {
    SkipBlanks(after, "");
    assert after + "" == after;
    ExprComplete(leaf, e, after);
  }

  // ---------------------------------------------------------------- whatever evaluates is a formula

  lemma {:induction false} SkipSplits(s: string) returns (blanks: Blanks)
    ensures s == blanks + Skip(s)
    decreases |s|
  {
    if s != "" && IsBlank(s[0]) {
      var rest := SkipSplits(s[1..]);
      blanks := [s[0]] + rest;
      assert s == [s[0]] + s[1..];
    } else {
      blanks := "";
    }
  }

  lemma Reattach(left: string, between: string, more: string, op: string, right: string, rest: string)
    ensures left + (between + (more + (op + (right + rest)))) == (left + ((between + more) + (op + right))) + rest
  {
  }

  lemma Regroup(before: string, open: string, inner: string, between: string, more: string, close: string, rest: string)
    ensures before + (open + (inner + (between + (more + (close + rest))))) ==
            (before + (open + (inner + ((between + more) + close)))) + ("" + rest)
  {
  }

  lemma AtomSound(leaf: Leaf, s: string) returns (token: Token, after: Blanks)
    requires ParseAtom(leaf, s).Got? && !IsBlank(s[0])
    ensures s == token + (after + ParseAtom(leaf, s).rest) && leaf(token) == Some(ParseAtom(leaf, s).value)
  {
    var run := RunLength(s);
    var trimmed := TrimTabs(s[..run]);
    forall c | c in trimmed ensures !IsDelimiter(c) {
      var i :| 0 <= i < |trimmed| && trimmed[i] == c;
      assert s[..run][i] == c;
    }
    assert trimmed[0] == s[0];
    token := trimmed;
    var tabs := s[|trimmed|..run];
    forall c | c in tabs ensures IsBlank(c) {
      var i :| 0 <= i < |tabs| && tabs[i] == c;
      assert s[..run][|trimmed| + i] == c;
    }
    after := tabs;
    assert s[..|trimmed|] == trimmed;
    assert s == s[..|trimmed|] + (s[|trimmed|..run] + s[run..]);
  }

  /** `s` is the text of `f`, blanks and the rest, and the parser found exactly that. */
  ghost predicate FactorFound(leaf: Leaf, s: string, f: Factor, after: Blanks, r: Parse) {
    r.Got? && s == FactorText(f) + (after + r.rest) && FactorValue(leaf, f) == Some(r.value)
  }

  ghost predicate TermFound(leaf: Leaf, s: string, t: Term, after: Blanks, r: Parse) {
    r.Got? && s == TermText(t) + (after + r.rest) && TermValue(leaf, t) == Some(r.value)
  }

  ghost predicate ExprFound(leaf: Leaf, s: string, e: Expr, after: Blanks, r: Parse) {
    r.Got? && s == ExprText(e) + (after + r.rest) && ExprValue(leaf, e) == Some(r.value)
  }

  lemma {:induction false} FactorSound(leaf: Leaf, s: string) returns (f: Factor, after: Blanks)
    requires ParseFactor(leaf, s).Got?
    ensures FactorFound(leaf, s, f, after, ParseFactor(leaf, s))
    decreases |s|, 0
  {
    var before := SkipSplits(s);
    var body := Skip(s);
    if body[0] == '+' || body[0] == '-' {
      var operand;
      operand, after := FactorSound(leaf, body[1..]);
      f := SignedSound(leaf, before, body, operand, after);
    } else if body[0] == '(' {
      var inner, between := ExprSound(leaf, body[1..]);
      f, after := ParensSound(leaf, before, body, inner, between);
    } else {
      var token;
      token, after := AtomSound(leaf, body);
      f := Atom(before, token);
      assert before + body == (before + token) + (after + ParseAtom(leaf, body).rest);
    }
  }

  lemma SignedSound(leaf: Leaf, before: Blanks, body: string, operand: Factor, after: Blanks) returns (f: Factor)
    requires body != "" && (body[0] == '+' || body[0] == '-')
    requires FactorFound(leaf, body[1..], operand, after, ParseFactor(leaf, body[1..]))
    ensures FactorFound(leaf, before + body, f, after, FactorBody(leaf, body))
  {
    var sign := if body[0] == '+' then PlusSign else MinusSign;
    f := Signed(before, sign, operand);
    var rest := ParseFactor(leaf, body[1..]).rest;
    assert body == SignText(sign) + body[1..];
    assert before + (SignText(sign) + (FactorText(operand) + (after + rest))) ==
           (before + (SignText(sign) + FactorText(operand))) + (after + rest);
  }

  lemma ParensSound(leaf: Leaf, before: Blanks, body: string, inner: Expr, between: Blanks)
    returns (f: Factor, after: Blanks)
    requires body != "" && body[0] == '(' && FactorBody(leaf, body).Got?
    requires ExprFound(leaf, body[1..], inner, between, ParseExpr(leaf, body[1..]))
    ensures FactorFound(leaf, before + body, f, after, FactorBody(leaf, body))
  {
    var v := ParseExpr(leaf, body[1..]);
    var more := SkipSplits(v.rest);
    f, after := Parens(before, inner, Joined(between, more)), "";
    var rest := Skip(v.rest)[1..];
    assert body == "(" + body[1..] && Skip(v.rest) == ")" + rest;
    assert v.rest == more + (")" + rest);
    Regroup(before, "(", ExprText(inner), between, more, ")", rest);
  }

  function Joined(a: Blanks, b: Blanks): (all: Blanks)
    ensures all == a + b
  {
    assert forall c | c in a + b :: c in a || c in b;
    a + b
  }

  lemma {:induction false} TermSound(leaf: Leaf, s: string) returns (t: Term, after: Blanks)
    requires ParseTerm(leaf, s).Got?
    ensures TermFound(leaf, s, t, after, ParseTerm(leaf, s))
    decreases |s|, 2
  {
    var v := ParseFactor(leaf, s);
    var f, between := FactorSound(leaf, s);
    t, after := TermRestSound(leaf, OneFactor(f), between, v.rest);
  }

  lemma {:induction false} TermRestSound(leaf: Leaf, left: Term, between: Blanks, s: string)
    returns (t: Term, after: Blanks)
    requires TermRest(leaf, TermValue(leaf, left), s).Got?
    ensures TermFound(leaf, TermText(left) + (between + s), t, after, TermRest(leaf, TermValue(leaf, left), s))
    decreases |s|, 1
  {
    var more := SkipSplits(s);
    var body := Skip(s);
    if body == "" || (body[0] != '*' && body[0] != '/') {
      t, after := left, Joined(between, more);
      assert between + (more + body) == (between + more) + body;
    } else {
      var right, next := FactorSound(leaf, body[1..]);
      var longer := TermStep(leaf, left, between, more, body, right, next);
      t, after := TermRestSound(leaf, longer, next, ParseFactor(leaf, body[1..]).rest);
    }
  }

  /** One turn of the loop of `term` lengthens the term read so far. */
  lemma TermStep(leaf: Leaf, left: Term, between: Blanks, more: Blanks, body: string, right: Factor, next: Blanks)
    returns (longer: Term)
    requires body != "" && (body[0] == '*' || body[0] == '/')
    requires FactorFound(leaf, body[1..], right, next, ParseFactor(leaf, body[1..]))
    ensures var rest := ParseFactor(leaf, body[1..]).rest;
            TermText(left) + (between + (more + body)) == TermText(longer) + (next + rest)
    ensures TermValue(leaf, left).Some? ==>
              TermTurn(leaf, TermValue(leaf, left).value, body) ==
              TermRest(leaf, TermValue(leaf, longer), ParseFactor(leaf, body[1..]).rest)
  {
    var op := if body[0] == '*' then Times else Divide;
    longer := Scaled(left, Joined(between, more), op, right);
    assert body == ScaleText(op) + body[1..];
    Reattach(TermText(left), between, more, ScaleText(op), FactorText(right), next + ParseFactor(leaf, body[1..]).rest);
  }

  lemma {:induction false} ExprSound(leaf: Leaf, s: string) returns (e: Expr, after: Blanks)
    requires ParseExpr(leaf, s).Got?
    ensures ExprFound(leaf, s, e, after, ParseExpr(leaf, s))
    decreases |s|, 4
  {
    var v := ParseTerm(leaf, s);
    var t, between := TermSound(leaf, s);
    e, after := ExprRestSound(leaf, OneTerm(t), between, v.rest);
  }

  lemma {:induction false} ExprRestSound(leaf: Leaf, left: Expr, between: Blanks, s: string)
    returns (e: Expr, after: Blanks)
    requires ExprRest(leaf, ExprValue(leaf, left), s).Got?
    ensures ExprFound(leaf, ExprText(left) + (between + s), e, after, ExprRest(leaf, ExprValue(leaf, left), s))
    decreases |s|, 3
  {
    var more := SkipSplits(s);
    var body := Skip(s);
    if body == "" || (body[0] != '+' && body[0] != '-') {
      e, after := left, Joined(between, more);
      assert between + (more + body) == (between + more) + body;
    } else {
      var right, next := TermSound(leaf, body[1..]);
      var longer := ExprStep(leaf, left, between, more, body, right, next);
      e, after := ExprRestSound(leaf, longer, next, ParseTerm(leaf, body[1..]).rest);
    }
  }

  /** One turn of the loop of `expression`. */
  lemma ExprStep(leaf: Leaf, left: Expr, between: Blanks, more: Blanks, body: string, right: Term, next: Blanks)
    returns (longer: Expr)
    requires body != "" && (body[0] == '+' || body[0] == '-')
    requires TermFound(leaf, body[1..], right, next, ParseTerm(leaf, body[1..]))
    ensures var rest := ParseTerm(leaf, body[1..]).rest;
            ExprText(left) + (between + (more + body)) == ExprText(longer) + (next + rest)
    ensures ExprValue(leaf, left).Some? ==>
              ExprTurn(leaf, ExprValue(leaf, left).value, body) ==
              ExprRest(leaf, ExprValue(leaf, longer), ParseTerm(leaf, body[1..]).rest)
  {
    var op := if body[0] == '+' then PlusSign else MinusSign;
    longer := Summed(left, Joined(between, more), op, right);
    assert body == SignText(op) + body[1..];
    Reattach(ExprText(left), between, more, SignText(op), TermText(right), next + ParseTerm(leaf, body[1..]).rest);
  }

  ghost predicate IsFormula(s: string, e: Expr) {
    exists after: Blanks :: s == ExprText(e) + after
  }

  /** A text parses to a number exactly when it is the text of a formula with that value; no text has
      two values. */
  lemma ParsesIffFormula(leaf: Leaf, s: string, v: real)
    ensures Parsed(leaf, s) == Some(v) <==> exists e :: IsFormula(s, e) && ExprValue(leaf, e) == Some(v)
  {
    if Parsed(leaf, s) == Some(v) {
      var e, after := ExprSound(leaf, s);
      var rest := ParseExpr(leaf, s).rest;
      var more := SkipSplits(rest);
      var all := Joined(after, more);
      assert s == ExprText(e) + all;
      assert IsFormula(s, e);
    }
    forall e | IsFormula(s, e) ensures Parsed(leaf, s) == ExprValue(leaf, e) {
      var after: Blanks :| s == ExprText(e) + after;
      TextParses(leaf, e, after);
    }
  }

  // ---------------------------------------------------------------- printing with the fewest characters

  datatype Tree =
    | Operand(token: Token)
    | Unary(sign: Sign, tree: Tree)
    | Sum(left: Tree, plus: Sign, right: Tree)
    | Product(left: Tree, times: Scale, right: Tree)

  function TreeValue(leaf: Leaf, t: Tree): Option<real> {
    match t
    case Operand(token) => leaf(token)
    case Unary(sign, tree) =>
      var v := TreeValue(leaf, tree);
      if v.None? then None else Some(Apply(sign, v.value))
    case Sum(left, plus, right) => Combine(TreeValue(leaf, left), plus, TreeValue(leaf, right))
    case Product(left, times, right) => ScaleBy(TreeValue(leaf, left), times, TreeValue(leaf, right))
  }

  /** The arithmetic tree that a formula stands for, without its blanks and parentheses. */
  function FactorTree(f: Factor): Tree {
    match f
    case Atom(_, token) => Operand(token)
    case Signed(_, sign, operand) => Unary(sign, FactorTree(operand))
    case Parens(_, inner, _) => ExprTree(inner)
  }

  function TermTree(t: Term): Tree {
    match t
    case OneFactor(factor) => FactorTree(factor)
    case Scaled(left, _, op, right) => Product(TermTree(left), op, FactorTree(right))
  }

  function ExprTree(e: Expr): Tree {
    match e
    case OneTerm(term) => TermTree(term)
    case Summed(first, _, op, second) => Sum(ExprTree(first), op, TermTree(second))
  }

  function AsFactor(t: Tree): Factor
    decreases t, if t.Sum? || t.Product? then 3 else 0
  {
    match t
    case Operand(token) => Atom("", token)
    case Unary(sign, tree) => Signed("", sign, AsFactor(tree))
    case _ => Parens("", AsExpr(t), "")
  }

  function AsTerm(t: Tree): Term
    decreases t, if t.Sum? then 4 else 1
  {
    match t
    case Product(left, times, right) => Scaled(AsTerm(left), "", times, AsFactor(right))
    case _ => OneFactor(AsFactor(t))
  }

  /** The formula of a tree, with parentheses only where the tree needs them. */
  function AsExpr(t: Tree): Expr
    decreases t, 2
  {
    match t
    case Sum(left, plus, right) => Summed(AsExpr(left), "", plus, AsTerm(right))
    case _ => OneTerm(AsTerm(t))
  }

  lemma {:induction false} PrintKeepsTree(t: Tree)
    ensures FactorTree(AsFactor(t)) == t && TermTree(AsTerm(t)) == t && ExprTree(AsExpr(t)) == t
    decreases t
  {
    match t
    case Operand(_) =>
    case Unary(_, tree) => PrintKeepsTree(tree);
    case Sum(left, _, right) => PrintKeepsTree(left); PrintKeepsTree(right);
    case Product(left, _, right) =>
      PrintKeepsTree(left);
      PrintKeepsTree(right);
      assert TermTree(AsTerm(t)) == t;
      assert ExprTree(AsExpr(t)) == t;
  }

  lemma {:induction false} FactorTreeValue(leaf: Leaf, f: Factor)
    ensures FactorValue(leaf, f) == TreeValue(leaf, FactorTree(f))
    decreases f
  {
    match f
    case Atom(_, _) =>
    case Signed(_, _, operand) => FactorTreeValue(leaf, operand);
    case Parens(_, inner, _) => ExprTreeValue(leaf, inner);
  }

  lemma {:induction false} TermTreeValue(leaf: Leaf, t: Term)
    ensures TermValue(leaf, t) == TreeValue(leaf, TermTree(t))
    decreases t
  {
    match t
    case OneFactor(factor) => FactorTreeValue(leaf, factor);
    case Scaled(left, _, _, right) => TermTreeValue(leaf, left); FactorTreeValue(leaf, right);
  }

  lemma {:induction false} ExprTreeValue(leaf: Leaf, e: Expr)
    ensures ExprValue(leaf, e) == TreeValue(leaf, ExprTree(e))
    decreases e
  {
    match e
    case OneTerm(term) => TermTreeValue(leaf, term);
    case Summed(first, _, _, second) => ExprTreeValue(leaf, first); TermTreeValue(leaf, second);
  }

  lemma OperandText(token: Token)
    ensures ExprText(AsExpr(Operand(token))) == token
  {
    var t := Operand(token);
    assert AsTerm(t) == OneFactor(Atom("", token));
    assert TermText(AsTerm(t)) == "" + token == token;
  }

  lemma {:induction false} PrintedLengths(t: Tree)
    ensures |ExprText(AsExpr(t))| <= |TermText(AsTerm(t))| <= |FactorText(AsFactor(t))| <= |ExprText(AsExpr(t))| + 2
  {
  }

  lemma {:induction false} FactorIsShortest(f: Factor)
    ensures |FactorText(AsFactor(FactorTree(f)))| <= |FactorText(f)|
    decreases f
  {
    match f
    case Atom(_, _) =>
    case Signed(_, _, operand) => FactorIsShortest(operand);
    case Parens(_, inner, _) => ExprIsShortest(inner); PrintedLengths(ExprTree(inner));
  }

  lemma {:induction false} TermIsShortest(t: Term)
    ensures |TermText(AsTerm(TermTree(t)))| <= |TermText(t)|
    decreases t
  {
    match t
    case OneFactor(factor) => FactorIsShortest(factor); PrintedLengths(FactorTree(factor));
    case Scaled(left, _, _, right) => TermIsShortest(left); FactorIsShortest(right);
  }

  /** No formula of the same tree is shorter than the printed one. */
  lemma {:induction false} ExprIsShortest(e: Expr)
    ensures |ExprText(AsExpr(ExprTree(e)))| <= |ExprText(e)|
    decreases e
  {
    match e
    case OneTerm(term) => TermIsShortest(term); PrintedLengths(TermTree(term));
    case Summed(first, _, _, second) => ExprIsShortest(first); TermIsShortest(second);
  }

  // ---------------------------------------------------------------- the parser

  class ExprParser {
    const input: string
    const leaf: Leaf
    var pos: nat

    ghost predicate Valid() reads this { pos <= |input| }

    ghost function Left(): string
      requires Valid()
      reads this
    {
      input[pos..]
    }

    constructor (input: string, leaf: Leaf)
      ensures Valid() && this.input == input && this.leaf == leaf && Left() == input
    {
      this.input, this.leaf, pos := input, leaf, 0;
    }

    method Space()
      requires Valid()
      modifies this`pos
      ensures Valid() && pos >= old(pos) && Left() == Skip(old(Left()))
    {
      while pos < |input| && IsBlank(input[pos])
        invariant Valid() && pos >= old(pos) && Skip(Left()) == Skip(old(Left()))
      {
        assert Left()[1..] == input[pos + 1..];
        pos := pos + 1;
      }
    }

    /** What a parsing method leaves behind, given what the parse functions say. */
    ghost predicate Parsed(from: nat, r: Parse, value: Option<real>)
      reads this
    {
      && Valid()
      && pos >= from
      && (if r.Failed? then value.None? else value == Some(r.value) && Left() == r.rest)
    }

    method Expression() returns (value: Option<real>)
      requires Valid()
      modifies this`pos
      ensures Parsed(old(pos), ParseExpr(leaf, old(Left())), value)
      decreases |input| - pos, 7
    {
      value := Term();
      while value.Some?
        invariant Valid() && pos >= old(pos)
        invariant ParseExpr(leaf, old(Left())) == ExprRest(leaf, value, Left())
        decreases |input| - pos
      {
        Space();
        if pos >= |input| || (input[pos] != '+' && input[pos] != '-') {
          break;
        }
        var op := if input[pos] == '+' then PlusSign else MinusSign;
        assert Left()[1..] == input[pos + 1..];
        pos := pos + 1;
        var right := Term();
        value := Combine(value, op, right);
      }
    }

    /** The operator at the position and its right operand. */
    method ScaleNext(left: Option<real>) returns (value: Option<real>)
      requires Valid() && left.Some? && pos < |input| && (input[pos] == '*' || input[pos] == '/')
      modifies this`pos
      ensures Valid() && pos > old(pos)
      ensures TermTurn(leaf, left.value, old(Left())) == TermRest(leaf, value, Left())
      decreases |input| - pos, 3
    {
      var op := if input[pos] == '*' then Times else Divide;
      assert Left()[1..] == input[pos + 1..];
      pos := pos + 1;
      var right := Factor();
      value := ScaleBy(left, op, right);
    }

    method Term() returns (value: Option<real>)
      requires Valid()
      modifies this`pos
      ensures Parsed(old(pos), ParseTerm(leaf, old(Left())), value)
      decreases |input| - pos, 4
    {
      value := Factor();
      while value.Some?
        invariant Valid() && pos >= old(pos)
        invariant ParseTerm(leaf, old(Left())) == TermRest(leaf, value, Left())
        decreases |input| - pos
      {
        Space();
        if pos >= |input| || (input[pos] != '*' && input[pos] != '/') {
          break;
        }
        value := ScaleNext(value);
      }
    }

    method Factor() returns (value: Option<real>)
      requires Valid()
      modifies this`pos
      ensures Parsed(old(pos), ParseFactor(leaf, old(Left())), value)
      decreases |input| - pos, 1
    {
      Space();
      if pos >= |input| {
        return None;
      }
      ghost var s := Left();
      assert s[0] == input[pos] && s[1..] == input[pos + 1..];
      assert ParseFactor(leaf, old(Left())) == FactorBody(leaf, s);
      if input[pos] == '+' || input[pos] == '-' {
        var sign := if input[pos] == '+' then PlusSign else MinusSign;
        pos := pos + 1;
        value := Factor();
        value := if value.None? then None else Some(Apply(sign, value.value));
      } else if input[pos] == '(' {
        pos := pos + 1;
        value := Expression();
        Space();
        if value.None? || pos >= |input| || input[pos] != ')' {
          return None;
        }
        assert Left()[1..] == input[pos + 1..];
        pos := pos + 1;
      } else {
        value := Atom();
      }
    }

    /** A literal or a field path: everything up to the next delimiter. */
    method Atom() returns (value: Option<real>)
      requires Valid()
      modifies this`pos
      ensures Parsed(old(pos), ParseAtom(leaf, old(Left())), value)
    {
      var start := pos;
      while pos < |input| && !IsDelimiter(input[pos])
        invariant start <= pos <= |input|
        invariant forall i | start <= i < pos :: !IsDelimiter(input[i])
      {
        pos := pos + 1;
      }
      RunIs(input, start, pos);
      var token := TrimTabs(input[start..pos]);
      value := if token == "" then None else leaf(token);
    }
  }

  lemma {:induction false} RunIs(s: string, start: nat, end: nat)
    requires start <= end <= |s| && (forall i | start <= i < end :: !IsDelimiter(s[i]))
    requires end < |s| ==> IsDelimiter(s[end])
    ensures var run := RunLength(s[start..]);
            s[start..][..run] == s[start..end] && s[start..][run..] == s[end..]
  {
    var rest := s[start..];
    var run := RunLength(rest);
    assert run < |rest| ==> IsDelimiter(rest[run]) && rest[run] == s[start + run];
    assert end < |s| ==> IsDelimiter(s[end]) && rest[end - start] == s[end];
    SliceOfRest(s, start, end);
  }

  lemma SliceOfRest(s: string, start: nat, end: nat)
    requires start <= end <= |s|
    ensures s[start..end] == s[start..][..end - start] && s[end..] == s[start..][end - start..]
  {
  }

  // ---------------------------------------------------------------- typographic operators

  /** The UTF-8 bytes of the multiplication sign, the division sign and the minus sign. */
  const TIMES_SIGN := "\U{C3}\U{97}"
  const DIVISION_SIGN := "\U{C3}\U{B7}"
  const MINUS_SIGN := "\U{E2}\U{88}\U{92}"

  predicate IsSign(sign: string) { sign == TIMES_SIGN || sign == DIVISION_SIGN || sign == MINUS_SIGN }

  function PlainOperator(sign: string): string {
    if sign == TIMES_SIGN then "*" else if sign == DIVISION_SIGN then "/" else "-"
  }

  /** How many bytes of `s` are a typographic operator at its beginning, or 0. */
  function SignLength(s: string): (n: nat)
    ensures n <= |s| && (n > 0 ==> IsSign(s[..n]))
  {
    if |s| >= 2 && (s[..2] == TIMES_SIGN || s[..2] == DIVISION_SIGN) then 2
    else if |s| >= 3 && s[..3] == MINUS_SIGN then 3
    else 0
  }

  lemma SignHasLength(sign: string, b: string)
    requires IsSign(sign)
    ensures SignLength(sign + b) == |sign| && sign != ""
  {
    Split(sign, b, |sign|);
    if sign == MINUS_SIGN {
      assert (sign + b)[0] != TIMES_SIGN[0];
    }
  }

  function Replaced(s: string): string {
    var n := SignLength(s);
    if s == "" then ""
    else if n > 0 then PlainOperator(s[..n]) + Replaced(s[n..])
    else s[..1] + Replaced(s[1..])
  }

  /** A text that does not begin with a later byte of a sign. */
  predicate StartsAfresh(s: string) { s == "" || s[0] !in "\U{97}\U{B7}\U{88}\U{92}" }

  /** A sign does not begin inside `a` and end in `x`. */
  lemma SignsDoNotStraddle(a: string, x: string)
    requires a != "" && StartsAfresh(x)
    ensures SignLength(a + x) == SignLength(a)
  {
    var s := a + x;
    assert x != "" ==> s[|a|] == x[0];
    assert forall i | 0 <= i < |a| :: s[i] == a[i];
    if |a| >= 2 { Split(a, x, 2); }
    if |a| >= 3 { Split(a, x, 3); }
    assert |a| < 2 && |s| >= 2 ==> s[1] == x[0] && s[..2][1] == s[1];
    assert |a| < 3 && |s| >= 3 ==> (s[1] == x[0] || s[2] == x[0]) && s[..3][1] == s[1] && s[..3][2] == s[2];
  }

  lemma SignFirst(sign: string, b: string)
    requires IsSign(sign)
    ensures Replaced(sign + b) == PlainOperator(sign) + Replaced(b)
  {
    SignHasLength(sign, b);
    assert (sign + b)[..|sign|] == sign && (sign + b)[|sign|..] == b;
  }

  /** One step of the replacement inside `a` does not see what follows `a`. */
  lemma ReplaceStep(a: string, x: string) returns (head: string, n: nat)
    requires a != "" && SignLength(a + x) == SignLength(a)
    ensures 0 < n <= |a|
    ensures Replaced(a) == head + Replaced(a[n..]) && Replaced(a + x) == head + Replaced(a[n..] + x)
  {
    n := if SignLength(a) > 0 then SignLength(a) else 1;
    Split(a, x, n);
    head := if SignLength(a) > 0 then PlainOperator(a[..n]) else a[..n];
  }

  lemma Split(a: string, b: string, n: nat)
    requires n <= |a|
    ensures (a + b)[..n] == a[..n] && (a + b)[n..] == a[n..] + b
  {
  }

  lemma {:induction false} ReplacedJoins(a: string, x: string)
    requires StartsAfresh(x)
    ensures Replaced(a + x) == Replaced(a) + Replaced(x)
    decreases |a|
  {
    if a == "" {
      assert a + x == x;
    } else {
      SignsDoNotStraddle(a, x);
      var head, n := ReplaceStep(a, x);
      ReplacedJoins(a[n..], x);
      Associate(head, Replaced(a[n..]), Replaced(x));
    }
  }

  lemma Associate(a: string, b: string, c: string)
    ensures a + (b + c) == (a + b) + c
  {
  }

  /** A typographic operator anywhere in a formula means the plain one, whatever stands around it. */
  lemma SignsMeanOperators(a: string, sign: string, b: string)
    requires IsSign(sign)
    ensures Replaced(a + (sign + b)) == Replaced(a) + (PlainOperator(sign) + Replaced(b))
  {
    SignFirst(sign, b);
    assert (sign + b)[0] == sign[0];
    ReplacedJoins(a, sign + b);
  }

  // ---------------------------------------------------------------- texts without typographic operators

  /** No typographic operator begins anywhere in `s`. */
  predicate Plain(s: string) {
    s == "" || (SignLength(s) == 0 && Plain(s[1..]))
  }

  /** No operand's name holds a typographic operator. */
  predicate PlainNames(t: Tree) {
    match t
    case Operand(token) => Plain(token)
    case Unary(_, tree) => PlainNames(tree)
    case Sum(left, _, right) => PlainNames(left) && PlainNames(right)
    case Product(left, _, right) => PlainNames(left) && PlainNames(right)
  }

  lemma {:induction false} PlainIffUnchanged(s: string)
    ensures |Replaced(s)| <= |s| && (Plain(s) <==> Replaced(s) == s)
    decreases |s|
  {
    if s != "" {
      var n := SignLength(s);
      if n > 0 {
        PlainIffUnchanged(s[n..]);
      } else {
        PlainIffUnchanged(s[1..]);
        assert s == s[..1] + s[1..];
        assert Replaced(s)[1..] == Replaced(s[1..]);
      }
    }
  }

  /** A byte of the result that is no operator is the first byte of the text. */
  lemma FirstKept(s: string)
    requires Replaced(s) != "" && Replaced(s)[0] !in "*/-"
    ensures s != "" && Replaced(s)[0] == s[0] && Replaced(s)[1..] == Replaced(s[1..])
  {
  }

  /** So are the bytes after it, up to an operator. */
  lemma BytesKept(s: string)
    ensures var r := Replaced(s);
            && (|r| >= 2 && r[0] !in "*/-" && r[1] !in "*/-" ==> |s| >= 2 && r[..2] == s[..2])
            && (|r| >= 3 && r[0] !in "*/-" && r[1] !in "*/-" && r[2] !in "*/-" ==> |s| >= 3 && r[..3] == s[..3])
  {
    var r := Replaced(s);
    if |r| >= 2 && r[0] !in "*/-" && r[1] !in "*/-" {
      FirstKept(s);
      FirstKept(s[1..]);
      assert r[1] == s[1];
      if |r| >= 3 && r[2] !in "*/-" {
        assert r[1..][1..] == r[2..] && s[1..][1..] == s[2..];
        FirstKept(s[2..]);
      }
    }
  }

  /** No typographic operator begins with these bytes. */
  lemma NoSignWithin(r: string)
    requires |r| < 2 || r[0] in "*/-" || r[1] in "*/-" || (SignLength(r[..2]) == 0 && (|r| < 3 || r[2] in "*/-"))
    ensures SignLength(r) == 0
  {
    if |r| >= 2 {
      assert r[..2][0] == r[0] && r[..2][1] == r[1] && r[..2][..2] == r[..2];
    }
    if |r| >= 3 {
      assert r[..3][0] == r[0] && r[..3][1] == r[1] && r[..3][2] == r[2];
    }
  }

  lemma NoSignFirst(s: string)
    ensures SignLength(Replaced(s)) == 0
  {
    var r := Replaced(s);
    BytesKept(s);
    if |r| < 2 || r[0] in "*/-" || r[1] in "*/-" {
      NoSignWithin(r);
    } else {
      FirstKept(s);
      assert SignLength(s) == 0;
      assert r[..2] == s[..2];
      if |r| < 3 || r[2] in "*/-" {
        assert r[..2][..2] == s[..2];
        NoSignWithin(r);
      } else {
        assert r[..3] == s[..3];
      }
    }
  }

  /** The replacement leaves no typographic operator and makes no new one. */
  lemma {:induction false} ReplacedIsPlain(s: string)
    ensures Plain(Replaced(s))
    decreases |s|
  {
    if s != "" {
      var rest := if SignLength(s) > 0 then s[SignLength(s)..] else s[1..];
      ReplacedIsPlain(rest);
      NoSignFirst(s);
      assert Replaced(s)[1..] == Replaced(rest);
    }
  }

  lemma {:induction false} PlainJoins(a: string, x: string)
    requires StartsAfresh(x)
    ensures Plain(a + x) <==> Plain(a) && Plain(x)
    decreases |a|
  {
    if a == "" {
      assert a + x == x;
    } else {
      SignsDoNotStraddle(a, x);
      Split(a, x, 1);
      PlainJoins(a[1..], x);
    }
  }

  lemma PlainAfter(d: string, x: string)
    requires |d| == 1 && d[0] in " \t+-*/()"
    ensures Plain(d + x) <==> Plain(x)
  {
    assert (d + x)[1..] == x && (d + x)[0] == d[0];
  }

  lemma {:induction false} PlainBlanks(blanks: Blanks, x: string)
    ensures Plain(blanks + x) <==> Plain(x)
    decreases |blanks|
  {
    if blanks == "" {
      assert blanks + x == x;
    } else {
      assert blanks[0] in blanks && forall c | c in blanks[1..] :: c in blanks;
      assert blanks + x == blanks[..1] + (blanks[1..] + x);
      PlainAfter(blanks[..1], blanks[1..] + x);
      PlainBlanks(blanks[1..], x);
    }
  }

  /** Blanks and a delimiter can follow anything. */
  lemma PlainAround(a: string, blanks: Blanks, d: string, x: string)
    requires |d| == 1 && d[0] in "+-*/()"
    ensures Plain(a + (blanks + (d + x))) <==> Plain(a) && Plain(x)
  {
    var tail := blanks + (d + x);
    assert blanks != "" ==> tail[0] == blanks[0] && blanks[0] in blanks;
    assert blanks == "" ==> tail[0] == d[0];
    PlainJoins(a, tail);
    PlainBlanks(blanks, d + x);
    PlainAfter(d, x);
  }

  lemma {:induction false} FactorPlain(f: Factor)
    ensures Plain(FactorText(f)) <==> PlainNames(FactorTree(f))
    decreases f
  {
    match f
    case Atom(before, token) =>
      PlainBlanks(before, token);
    case Signed(before, sign, operand) =>
      FactorPlain(operand);
      PlainBlanks(before, SignText(sign) + FactorText(operand));
      PlainAfter(SignText(sign), FactorText(operand));
    case Parens(before, inner, after) =>
      ExprPlain(inner);
      var body := ExprText(inner) + (after + ")");
      PlainBlanks(before, "(" + body);
      PlainAfter("(", body);
      assert ")" + "" == ")";
      PlainAround(ExprText(inner), after, ")", "");
  }

  lemma {:induction false} TermPlain(t: Term)
    ensures Plain(TermText(t)) <==> PlainNames(TermTree(t))
    decreases t
  {
    match t
    case OneFactor(factor) => FactorPlain(factor);
    case Scaled(left, before, op, right) =>
      TermPlain(left);
      FactorPlain(right);
      PlainAround(TermText(left), before, ScaleText(op), FactorText(right));
  }

  /** Only names can bring a typographic operator into a formula's text. */
  lemma {:induction false} ExprPlain(e: Expr)
    ensures Plain(ExprText(e)) <==> PlainNames(ExprTree(e))
    decreases e
  {
    match e
    case OneTerm(term) => TermPlain(term);
    case Summed(first, before, op, second) =>
      ExprPlain(first);
      TermPlain(second);
      PlainAround(ExprText(first), before, SignText(op), TermText(second));
  }

  lemma FormulaPlain(e: Expr, after: Blanks)
    ensures Plain(ExprText(e) + after) <==> PlainNames(ExprTree(e))
  {
    ExprPlain(e);
    assert after != "" ==> after[0] in after;
    PlainJoins(ExprText(e), after);
    PlainBlanks(after, "");
    assert after + "" == after;
  }

  // ---------------------------------------------------------------- the evaluator

  /** The value of an expression as it is entered. */
  function Evaluated(leaf: Leaf, expression: string): Option<real> {
    Parsed(leaf, Replaced(expression))
  }

  /** Evaluating the text of a formula gives its value, and fails exactly when it has none, unless a
      name in it holds a typographic operator. */
  lemma TextEvaluates(leaf: Leaf, e: Expr, after: Blanks)
    ensures PlainNames(ExprTree(e)) ==> Evaluated(leaf, ExprText(e) + after) == ExprValue(leaf, e)
  {
    FormulaPlain(e, after);
    PlainIffUnchanged(ExprText(e) + after);
    TextParses(leaf, e, after);
  }

  /** An expression evaluates to a number exactly when, its typographic operators read as plain ones,
      it is the text of a formula with that value.  No name of such a formula holds one. */
  lemma EvaluatesIffFormula(leaf: Leaf, expression: string, v: real)
    ensures Evaluated(leaf, expression) == Some(v) <==>
            exists e :: IsFormula(Replaced(expression), e) && ExprValue(leaf, e) == Some(v)
    ensures forall e | IsFormula(Replaced(expression), e) :: PlainNames(ExprTree(e))
  {
    ParsesIffFormula(leaf, Replaced(expression), v);
    forall e | IsFormula(Replaced(expression), e) ensures PlainNames(ExprTree(e)) {
      var after: Blanks :| Replaced(expression) == ExprText(e) + after;
      ReplacedIsPlain(expression);
      FormulaPlain(e, after);
    }
  }

  /** `leaf` without the names that hold a typographic operator. */
  function OnPlainNames(leaf: Leaf): Leaf {
    (token: string) => if Plain(token) then leaf(token) else None
  }

  lemma {:induction false} TreeOnPlainNames(leaf: Leaf, t: Tree)
    ensures TreeValue(OnPlainNames(leaf), t) == if PlainNames(t) then TreeValue(leaf, t) else None
    decreases t
  {
    match t
    case Operand(_) =>
    case Unary(_, tree) => TreeOnPlainNames(leaf, tree);
    case Sum(left, _, right) => TreeOnPlainNames(leaf, left); TreeOnPlainNames(leaf, right);
    case Product(left, _, right) => TreeOnPlainNames(leaf, left); TreeOnPlainNames(leaf, right);
  }

  /** A name that holds a typographic operator is never looked up. */
  lemma SignedNamesUnread(leaf: Leaf, expression: string)
    ensures Evaluated(OnPlainNames(leaf), expression) == Evaluated(leaf, expression)
  {
    var s := Replaced(expression);
    forall e | IsFormula(s, e)
      ensures ExprValue(OnPlainNames(leaf), e) == ExprValue(leaf, e)
    {
      EvaluatesIffFormula(leaf, expression, 0.0);
      TreeOnPlainNames(leaf, ExprTree(e));
      ExprTreeValue(leaf, e);
      ExprTreeValue(OnPlainNames(leaf), e);
    }
    if Evaluated(leaf, expression).Some? {
      EvaluatesIffFormula(leaf, expression, Evaluated(leaf, expression).value);
      EvaluatesIffFormula(OnPlainNames(leaf), expression, Evaluated(leaf, expression).value);
    } else if Evaluated(OnPlainNames(leaf), expression).Some? {
      EvaluatesIffFormula(leaf, expression, Evaluated(OnPlainNames(leaf), expression).value);
      EvaluatesIffFormula(OnPlainNames(leaf), expression, Evaluated(OnPlainNames(leaf), expression).value);
    }
  }

  lemma {:induction false} NoOperandNoValue(leaf: Leaf, t: Tree)
    requires forall token :: leaf(token).None?
    ensures TreeValue(leaf, t).None?
    decreases t
  {
    match t
    case Operand(_) =>
    case Unary(_, tree) => NoOperandNoValue(leaf, tree);
    case Sum(left, _, _) => NoOperandNoValue(leaf, left);
    case Product(left, _, _) => NoOperandNoValue(leaf, left);
  }

  /** An expression fails if no name without typographic operators has a value. */
  lemma FailsWithoutPlainNames(leaf: Leaf, expression: string)
    requires forall token | Plain(token) :: leaf(token).None?
    ensures Evaluated(leaf, expression).None?
  {
    var none := OnPlainNames(leaf);
    SignedNamesUnread(leaf, expression);
    if Evaluated(none, expression).Some? {
      var v := Evaluated(none, expression).value;
      EvaluatesIffFormula(none, expression, v);
      var e :| IsFormula(Replaced(expression), e) && ExprValue(none, e) == Some(v);
      ExprTreeValue(none, e);
      NoOperandNoValue(none, ExprTree(e));
    }
  }

  /** Evaluating undoes printing when no name holds a typographic operator. */
  lemma PrintedEvaluates(leaf: Leaf, t: Tree)
    ensures PlainNames(t) ==> Evaluated(leaf, ExprText(AsExpr(t))) == TreeValue(leaf, t)
  {
    PrintKeepsTree(t);
    ExprTreeValue(leaf, AsExpr(t));
    TextEvaluates(leaf, AsExpr(t), "");
    assert ExprText(AsExpr(t)) + "" == ExprText(AsExpr(t));
  }

  /** Evaluating undoes printing for every value of the operands exactly when no name holds a
      typographic operator -- for a tree that has a value at all, which `0 / 0` has not. */
  lemma PrintedEvaluatesIffPlain(some: Leaf, t: Tree)
    requires TreeValue(some, t).Some?
    ensures PlainNames(t) <==> forall leaf: Leaf :: Evaluated(leaf, ExprText(AsExpr(t))) == TreeValue(leaf, t)
  {
    var text := ExprText(AsExpr(t));
    if PlainNames(t) {
      forall leaf: Leaf ensures Evaluated(leaf, text) == TreeValue(leaf, t) {
        PrintedEvaluates(leaf, t);
      }
    } else {
      SignedNamesUnread(some, text);
      TreeOnPlainNames(some, t);
      assert Evaluated(some, text) != TreeValue(some, t) ||
             Evaluated(OnPlainNames(some), text) != TreeValue(OnPlainNames(some), t);
    }
  }

  method Evaluate(leaf: Leaf, expression: string) returns (value: Option<real>)
    ensures value == Evaluated(leaf, expression)
  {
    var parser := new ExprParser(Replaced(expression), leaf);
    value := parser.Expression();
    if value.Some? {
      parser.Space();
      if parser.pos != |parser.input| {
        value := None;
      }
    }
  }
}
