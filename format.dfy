/**
 * The part of C's `sprintf` that the firmware uses: literal characters are
 * copied, `%s` inserts a string argument and `%d` a signed integer argument.
 * A C string is modelled by its characters before the terminating NUL, so a
 * buffer of `n` bytes holds a string of at most `n - 1` characters.
 */
module Format {
  import Decimal

  datatype Option<T> = None | Some(value: T)

  /** A vararg of `sprintf`: a `char *` for `%s` or an `int` for `%d`. */
  datatype Arg = Str(s: string) | Int(i: int)

  /** A format string without any conversion. */
  predicate Literal(s: string) {
    forall i :: 0 <= i < |s| ==> s[i] != '%'
  }

  /** A text in which '%' does not occur is a literal format. */
  lemma NoConversion(s: string)
    requires '%' !in s
    ensures Literal(s)
  {
  }

  /**
   * `sprintf(buf, fmt, args...)`: the text written into `buf`, or None when a
   * conversion is not `%s`/`%d` or its argument is missing or of the wrong
   * kind (undefined behaviour in C). Arguments left over are ignored, as in C.
   */
  function Sprintf(fmt: string, args: seq<Arg>): (r: Option<string>)
    ensures args == [] ==> (r.Some? <==> Literal(fmt))
    decreases |fmt|
  {
    if fmt == [] then Some([])
    else if fmt[0] != '%' then
      assert Literal(fmt) <==> Literal(fmt[1..]) by {
        assert forall i :: 0 < i < |fmt| ==> fmt[i] == fmt[1..][i - 1];
      }
      match Sprintf(fmt[1..], args)
      case Some(rest) => Some([fmt[0]] + rest)
      case None => None
    else if |fmt| >= 2 && fmt[1] == 's' && |args| > 0 && args[0].Str? then
      match Sprintf(fmt[2..], args[1..])
      case Some(rest) => Some(args[0].s + rest)
      case None => None
    else if |fmt| >= 2 && fmt[1] == 'd' && |args| > 0 && args[0].Int? then
      match Sprintf(fmt[2..], args[1..])
      case Some(rest) => Some(Decimal.FormatInt(args[0].i) + rest)
      case None => None
    else None
  }

  /** A literal prefix of the format is copied in front of the rest of the output. */
  lemma {:induction false} SprintfLiteralPrefix(lit: string, fmt: string, args: seq<Arg>)
    requires Literal(lit)
    ensures Sprintf(lit + fmt, args) ==
      match Sprintf(fmt, args)
      case Some(rest) => Some(lit + rest)
      case None => None
  {
    if lit == [] {
      assert lit + fmt == fmt;
      match Sprintf(fmt, args)
      case Some(rest) => assert lit + rest == rest;
      case None =>
    } else {
      assert (lit + fmt)[0] == lit[0];
      assert (lit + fmt)[1..] == lit[1..] + fmt;
      SprintfLiteralPrefix(lit[1..], fmt, args);
      match Sprintf(fmt, args)
      case Some(rest) => assert [lit[0]] + (lit[1..] + rest) == lit + rest;
      case None =>
    }
  }

  /** A format without conversions is copied as it is. */
  lemma SprintfLiteral(lit: string, args: seq<Arg>)
    requires Literal(lit)
    ensures Sprintf(lit, args) == Some(lit)
  {
    assert lit + [] == lit;
    SprintfLiteralPrefix(lit, [], args);
  }

  /** `sprintf(buf, "<lit1>%s<lit2>", s)` writes lit1 + s + lit2. */
  lemma SprintfOneString(lit1: string, lit2: string, s: string)
    requires Literal(lit1) && Literal(lit2)
    ensures Sprintf(lit1 + "%s" + lit2, [Str(s)]) == Some(lit1 + s + lit2)
  {
    var tail := "%s" + lit2;
    assert lit1 + "%s" + lit2 == lit1 + tail;
    assert tail[0] == '%' && tail[1] == 's' && tail[2..] == lit2;
    SprintfLiteral(lit2, []);
    assert [Str(s)][1..] == [];
    assert Sprintf(tail, [Str(s)]) == Some(s + lit2);
    SprintfLiteralPrefix(lit1, tail, [Str(s)]);
    assert lit1 + (s + lit2) == lit1 + s + lit2;
  }

  /** `sprintf(buf, "<lit1>%d<lit2>", i)` writes lit1 + decimal(i) + lit2. */
  lemma SprintfOneInt(lit1: string, lit2: string, i: int)
    requires Literal(lit1) && Literal(lit2)
    ensures Sprintf(lit1 + "%d" + lit2, [Int(i)]) == Some(lit1 + Decimal.FormatInt(i) + lit2)
  {
    var tail := "%d" + lit2;
    assert lit1 + "%d" + lit2 == lit1 + tail;
    assert tail[0] == '%' && tail[1] == 'd' && tail[2..] == lit2;
    SprintfLiteral(lit2, []);
    assert [Int(i)][1..] == [];
    assert Sprintf(tail, [Int(i)]) == Some(Decimal.FormatInt(i) + lit2);
    SprintfLiteralPrefix(lit1, tail, [Int(i)]);
    assert lit1 + (Decimal.FormatInt(i) + lit2) == lit1 + Decimal.FormatInt(i) + lit2;
  }

  /** A `%s` at the head of the format inserts the first argument. */
  lemma SprintfStrHead(s: string, fmt: string, args: seq<Arg>)
    ensures Sprintf("%s" + fmt, [Str(s)] + args) ==
      match Sprintf(fmt, args)
      case Some(rest) => Some(s + rest)
      case None => None
  {
    var f := "%s" + fmt;
    assert f[0] == '%' && f[1] == 's' && f[2..] == fmt;
    assert ([Str(s)] + args)[0] == Str(s);
    assert ([Str(s)] + args)[1..] == args;
  }

  /** The tail `<mid>%s<lit2>` of a two-string format, fed its second argument. */
  lemma SprintfMidString(mid: string, lit2: string, t: string)
    requires Literal(mid) && Literal(lit2)
    ensures Sprintf(mid + ("%s" + lit2), [Str(t)]) == Some(mid + (t + lit2))
  {
    SprintfLiteral(lit2, []);
    SprintfStrHead(t, lit2, []);
    assert [Str(t)] + [] == [Str(t)];
    SprintfLiteralPrefix(mid, "%s" + lit2, [Str(t)]);
  }

  /** The two-string format with its concatenations grouped to the right. */
  lemma SprintfTwoStringsNested(lit1: string, mid: string, lit2: string, s: string, t: string)
    requires Literal(lit1) && Literal(mid) && Literal(lit2)
    ensures Sprintf(lit1 + ("%s" + (mid + ("%s" + lit2))), [Str(s), Str(t)]) == Some(lit1 + (s + (mid + (t + lit2))))
  {
    var inner := mid + ("%s" + lit2);
    SprintfMidString(mid, lit2, t);
    SprintfStrHead(s, inner, [Str(t)]);
    assert [Str(s)] + [Str(t)] == [Str(s), Str(t)];
    SprintfLiteralPrefix(lit1, "%s" + inner, [Str(s), Str(t)]);
  }

  /** `sprintf(buf, "<lit1>%s<mid>%s<lit2>", s, t)` writes lit1 + s + mid + t + lit2. */
  lemma SprintfTwoStrings(lit1: string, mid: string, lit2: string, s: string, t: string)
    requires Literal(lit1) && Literal(mid) && Literal(lit2)
    ensures Sprintf(lit1 + "%s" + mid + "%s" + lit2, [Str(s), Str(t)]) == Some(lit1 + s + mid + t + lit2)
  {
    SprintfTwoStringsNested(lit1, mid, lit2, s, t);
    Regroup(lit1 + "%s" + mid, "%s", lit2);
    Regroup(lit1 + "%s", mid, "%s" + lit2);
    Regroup(lit1, "%s", mid + ("%s" + lit2));
    Regroup(lit1 + s + mid, t, lit2);
    Regroup(lit1 + s, mid, t + lit2);
    Regroup(lit1, s, mid + (t + lit2));
  }

  /** Three texts concatenated, regrouped to the right. */
  lemma Regroup(a: string, b: string, c: string)
    ensures a + b + c == a + (b + c)
  {
  }
}
