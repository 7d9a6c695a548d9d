/** Field paths into a JSON document, the operands of dashboard formulas.

    A path is taken as trimmed of the space around it.  Every failure of the lookup is `None`. */
module FieldPath {
  import opened Strings
  import opened Wrappers
  import Formula

  datatype Json =
    | Object(fields: map<string, Json>)
    | Array(items: seq<Json>)
    | Number(value: real)
    | Other

  datatype Step = Key(name: string) | Index(index: int)

  // ---------------------------------------------------------------- what a path means

  function Follow(value: Json, step: Step): Option<Json> {
    match step
    case Key(name) => if value.Object? && name in value.fields then Some(value.fields[name]) else None
    case Index(index) =>
      if value.Array? && 0 <= index < |value.items| then Some(value.items[index]) else None
  }

  function Navigate(value: Json, steps: seq<Step>): Option<Json> {
    if steps == [] then Some(value)
    else
      var next := Follow(value, steps[0]);
      if next.None? then None else Navigate(next.value, steps[1..])
  }

  lemma {:induction false} NavigateJoins(value: Json, a: seq<Step>, b: seq<Step>)
    ensures Navigate(value, a + b) ==
            if Navigate(value, a).None? then None else Navigate(Navigate(value, a).value, b)
    decreases |a|
  {
    if a == [] {
      assert a + b == b;
    } else {
      assert (a + b)[1..] == a[1..] + b;
      if Follow(value, a[0]).Some? {
        NavigateJoins(Follow(value, a[0]).value, a[1..], b);
      }
    }
  }

  // ---------------------------------------------------------------- reading a path

  /** The index of the first of the two characters, or the length. */
  function Until(s: string, c: char, d: char): (n: nat)
    ensures n <= |s| && (n < |s| ==> s[n] == c || s[n] == d) && forall i | 0 <= i < n :: s[i] != c && s[i] != d
  {
    if s == "" || s[0] == c || s[0] == d then 0 else 1 + Until(s[1..], c, d)
  }

  predicate IsDigit(c: char) { '0' <= c <= '9' }

  function Digits(s: string): (n: nat)
    requires forall c | c in s :: IsDigit(c)
  {
    if s == "" then 0
    else
      var last := s[|s| - 1];
      assert last in s && IsDigit(last);
      Digits(s[..|s| - 1]) * 10 + (last as int - '0' as int)
  }

  /** A decimal integer with an optional sign that fits 64 bits. */
  function Integer(s: string): Option<int> {
    var negative := s != "" && s[0] == '-';
    var digits := if s != "" && (s[0] == '-' || s[0] == '+') then s[1..] else s;
    if digits == "" || exists c | c in digits :: !IsDigit(c) then None
    else
      var n := if negative then 0 - Digits(digits) else Digits(digits);
      if -0x8000_0000_0000_0000 <= n <= 0x7fff_ffff_ffff_ffff then Some(n) else None
  }

  function AfterDot(s: string): string {
    if s != "" && s[0] == '.' then s[1..] else s
  }

  /** The first step of a path and the path after it. */
  function First(s: string): (r: Option<(Step, string)>)
    requires s != ""
    ensures r.Some? ==> |r.value.1| < |s|
  {
    if s[0] == '[' then
      var end := Until(s, ']', ']');
      if end == |s| || end < 2 || Integer(s[1..end]).None? then None
      else Some((Index(Integer(s[1..end]).value), AfterDot(s[end + 1..])))
    else
      var end := Until(s, '.', '[');
      Some((Key(s[..end]), AfterDot(s[end..])))
  }

  function Steps(s: string): Option<seq<Step>>
    decreases |s|
  {
    if s == "" then Some([])
    else
      var first := First(s);
      if first.None? then None
      else
        var rest := Steps(first.value.1);
        if rest.None? then None else Some([first.value.0] + rest.value)
  }

  /** What the steps of a path lead to; nothing if the path cannot be read. */
  function Target(value: Json, s: string): Option<Json> {
    if Steps(s).None? then None else Navigate(value, Steps(s).value)
  }

  /** Follows the path step by step while reading it, stopping at the first failure. */
  method Extract(value: Json, path: string) returns (found: Option<Json>)
    ensures found == Target(value, path)
  {
    var current, left := value, path;
    while left != ""
      invariant Target(current, left) == Target(value, path)
      decreases |left|
    {
      if left[0] == '[' {
        var end := Until(left, ']', ']');
        if end == |left| || end < 2 {
          return None;
        }
        var index := Integer(left[1..end]);
        if index.None? || !current.Array? || !(0 <= index.value < |current.items|) {
          return None;
        }
        current, left := current.items[index.value], AfterDot(left[end + 1..]);
      } else {
        var end := Until(left, '.', '[');
        var key := left[..end];
        if !current.Object? || key !in current.fields {
          return None;
        }
        current, left := current.fields[key], AfterDot(left[end..]);
      }
    }
    return Some(current);
  }

  // ---------------------------------------------------------------- writing a path

  predicate Sayable(step: Step) {
    if step.Key? then '.' !in step.name && '[' !in step.name
    else -0x8000_0000_0000_0000 <= step.index <= 0x7fff_ffff_ffff_ffff
  }

  predicate AllSayable(steps: seq<Step>) {
    forall step | step in steps :: Sayable(step)
  }

  function IntegerText(n: int): string {
    if n < 0 then "-" + Decimal(0 - n) else Decimal(n)
  }

  function StepText(step: Step): string {
    if step.Key? then step.name else "[" + (IntegerText(step.index) + "]")
  }

  /** A dot stands between a step and a key, and after an empty key. */
  function PathText(steps: seq<Step>): string {
    if steps == [] then ""
    else StepText(steps[0]) + (Separator(steps) + PathText(steps[1..]))
  }

  function Separator(steps: seq<Step>): string
    requires steps != []
  {
    if steps[0] == Key("") || (|steps| > 1 && steps[1].Key?) then "." else ""
  }

  lemma {:induction false} DigitsOfDecimal(n: nat)
    ensures (forall c | c in Decimal(n) :: IsDigit(c)) && Digits(Decimal(n)) == n
  {
    var digit := ['0' + (n % 10) as char];
    if n < 10 {
      assert Decimal(n) == digit && digit[..0] == "";
    } else {
      DigitsOfDecimal(n / 10);
      assert Decimal(n) == Decimal(n / 10) + digit;
      assert Decimal(n)[..|Decimal(n)| - 1] == Decimal(n / 10);
    }
  }

  lemma IntegerOfText(n: int)
    requires -0x8000_0000_0000_0000 <= n <= 0x7fff_ffff_ffff_ffff
    ensures Integer(IntegerText(n)) == Some(n) && ']' !in IntegerText(n)
  {
    var m := if n < 0 then 0 - n else n;
    var digits := Decimal(m);
    DigitsOfDecimal(m);
    assert digits[0] in digits;
    if n < 0 {
      NegativeText(digits);
    }
  }

  lemma NegativeText(digits: string)
    ensures ("-" + digits)[0] == '-' && ("-" + digits)[1..] == digits
    ensures ']' !in digits ==> ']' !in "-" + digits
  {
  }

  lemma {:induction false} UntilEnd(a: string, s: string, c: char, d: char)
    requires c !in a && d !in a && (s != "" ==> s[0] == c || s[0] == d)
    ensures Until(a + s, c, d) == |a|
    decreases |a|
  {
    if a == "" {
      assert a + s == s;
    } else {
      assert (a + s)[1..] == a[1..] + s && a[0] in a;
      UntilEnd(a[1..], s, c, d);
    }
  }

  lemma KeyFirst(name: string, s: string)
    requires '.' !in name && '[' !in name && name + s != ""
    requires name == "" ==> s[0] == '.'
    requires s != "" ==> s[0] == '.' || s[0] == '['
    ensures First(name + s) == Some((Key(name), AfterDot(s)))
  {
    UntilEnd(name, s, '.', '[');
    assert (name + s)[..|name|] == name && (name + s)[|name|..] == s;
    assert name != "" ==> name[0] in name;
  }

  lemma IndexFirst(n: int, s: string)
    requires -0x8000_0000_0000_0000 <= n <= 0x7fff_ffff_ffff_ffff
    ensures First(StepText(Index(n)) + s) == Some((Index(n), AfterDot(s)))
  {
    var digits := IntegerText(n);
    var text := ("[" + digits) + ("]" + s);
    assert StepText(Index(n)) + s == text;
    IntegerOfText(n);
    UntilEnd("[" + digits, "]" + s, ']', ']');
    assert text[1..|digits| + 1] == digits && text[|digits| + 2..] == s;
  }

  /** What follows a step starts with a dot, which is then taken off, or with a bracket, or is empty. */
  lemma AfterStep(steps: seq<Step>)
    requires steps != []
    ensures var after := Separator(steps) + PathText(steps[1..]);
            && AfterDot(after) == PathText(steps[1..])
            && (after != "" ==> after[0] == '.' || after[0] == '[')
            && (steps[0] == Key("") ==> after != "" && after[0] == '.')
  {
    var rest := PathText(steps[1..]);
    if Separator(steps) == "." {
      assert ("." + rest)[1..] == rest;
    } else {
      assert "" + rest == rest;
      if |steps| > 1 {
        assert steps[1..][0] == steps[1];
      }
    }
  }

  lemma FirstOfPath(steps: seq<Step>)
    requires steps != [] && Sayable(steps[0])
    ensures PathText(steps) != "" && First(PathText(steps)) == Some((steps[0], PathText(steps[1..])))
  {
    var after := Separator(steps) + PathText(steps[1..]);
    AfterStep(steps);
    if steps[0].Key? {
      KeyFirst(steps[0].name, after);
    } else {
      IndexFirst(steps[0].index, after);
    }
  }

  /** Reading undoes writing. */
  lemma {:induction false} PathReadsBack(steps: seq<Step>)
    requires AllSayable(steps)
    ensures Steps(PathText(steps)) == Some(steps)
  {
    if steps != [] {
      FirstOfPath(steps);
      PathReadsBack(steps[1..]);
      StepsContinue(PathText(steps), steps[0], PathText(steps[1..]), steps[1..]);
      assert steps == [steps[0]] + steps[1..];
    }
  }

  lemma StepsContinue(s: string, step: Step, rest: string, steps: seq<Step>)
    requires s != "" && First(s) == Some((step, rest)) && Steps(rest) == Some(steps)
    ensures Steps(s) == Some([step] + steps)
  {
  }

  lemma {:induction false} ReadStepsAreSayable(s: string)
    requires Steps(s).Some?
    ensures AllSayable(Steps(s).value)
    decreases |s|
  {
    if s != "" {
      var first := First(s).value;
      if s[0] != '[' {
        var end := Until(s, '.', '[');
        assert forall i | 0 <= i < end :: s[..end][i] == s[i];
      }
      ReadStepsAreSayable(first.1);
    }
  }

  /** A list of steps can be written as a path exactly when no key holds a separator and every index
      fits 64 bits; the written path leads where the steps lead. */
  lemma SayableIffReadable(value: Json, steps: seq<Step>)
    ensures AllSayable(steps) <==> exists s :: Steps(s) == Some(steps)
    ensures AllSayable(steps) ==> Target(value, PathText(steps)) == Navigate(value, steps)
  {
    if AllSayable(steps) {
      PathReadsBack(steps);
    }
    forall s | Steps(s) == Some(steps) ensures AllSayable(steps) {
      ReadStepsAreSayable(s);
    }
  }

  // ---------------------------------------------------------------- operands of formulas

  /** A token is a literal, or a path to a number. */
  function Operand(literal: Formula.Leaf, document: Json, token: string): Option<real> {
    if token == "" then None
    else if literal(token).Some? then literal(token)
    else
      var target := Target(document, token);
      if target.Some? && target.value.Number? then Some(target.value.value) else None
  }

  /** A formula over a document fails exactly when its tree has no value there, unless a name in it
      holds a typographic operator. */
  lemma FormulaOverDocument(literal: Formula.Leaf, document: Json, tree: Formula.Tree)
    ensures var leaf := (token: string) => Operand(literal, document, token);
            Formula.PlainNames(tree) ==>
              Formula.Evaluated(leaf, Formula.ExprText(Formula.AsExpr(tree))) == Formula.TreeValue(leaf, tree)
  {
    Formula.PrintedEvaluates((token: string) => Operand(literal, document, token), tree);
  }

  lemma {:induction false} PlainStart(s: string, n: nat)
    requires Formula.Plain(s) && n <= |s|
    ensures Formula.Plain(s[..n])
    decreases n
  {
    if n > 0 {
      PlainStart(s[1..], n - 1);
      assert s[..n][1..] == s[1..][..n - 1];
      assert n >= 2 ==> s[..n][..2] == s[..2];
      assert n >= 3 ==> s[..n][..3] == s[..3];
    }
  }

  /** No other path leads anywhere in a document with this one key. */
  lemma OnlyKey(name: string, number: real, path: string)
    requires path != "" && Formula.Plain(path) && !Formula.Plain(name)
    ensures Target(Object(map[name := Number(number)]), path).None?
  {
    if Steps(path).Some? && path[0] != '[' {
      PlainStart(path, Until(path, '.', '['));
    }
  }

  /** A document with one number, asked for by its key: there is a value exactly when the key holds no
      typographic operator. */
  lemma KeyEvaluatesIffPlain(name: Formula.Token, number: real)
    requires '.' !in name && '[' !in name
    ensures var document := Object(map[name := Number(number)]);
            var leaf := (token: string) => Operand(_ => None, document, token);
            Formula.TreeValue(leaf, Formula.Operand(name)) == Some(number)
            && Formula.Evaluated(leaf, name) == if Formula.Plain(name) then Some(number) else None
  {
    var document := Object(map[name := Number(number)]);
    var leaf := (token: string) => Operand(_ => None, document, token);
    assert PathText([Key(name)]) == name;
    WrittenOperand(_ => None, document, [Key(name)]);
    assert leaf(name) == Some(number);
    var tree := Formula.Operand(name);
    if Formula.Plain(name) {
      Formula.PrintedEvaluates(leaf, tree);
      Formula.OperandText(name);
    } else {
      forall token | Formula.Plain(token) ensures leaf(token).None? {
        if token != "" {
          OnlyKey(name, number, token);
        }
      }
      Formula.FailsWithoutPlainNames(leaf, name);
    }
  }

  /** The operand written for sayable steps is the number that they lead to. */
  lemma WrittenOperand(literal: Formula.Leaf, document: Json, steps: seq<Step>)
    requires AllSayable(steps) && PathText(steps) != "" && literal(PathText(steps)).None?
    ensures var target := Navigate(document, steps);
            Operand(literal, document, PathText(steps)) ==
            if target.Some? && target.value.Number? then Some(target.value.value) else None
  {
    PathReadsBack(steps);
  }
}
