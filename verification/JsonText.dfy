/** Faithful codecs exist: a self-delimiting text form of JSON values, and that no two values
    share it. */
module JsonText {
  import opened Wrappers
  import opened Json
  import opened Text

  // ----- the text -----

  function Unary(n: nat): string {
    if n == 0 then "." else "1" + Unary(n - 1)
  }

  function Signed(n: int): string {
    if n < 0 then "-" + Unary(-n) else "+" + Unary(n)
  }

  function Quoted(s: string): string {
    if s == "" then "." else "," + (Unary(s[0] as int) + Quoted(s[1..]))
  }

  function Floating(x: FloatValue): string {
    match x
    case Finite(d) => "d" + (Signed(d.mantissa) + Signed(d.exponent))
    case NegativeZero => "z"
    case Infinity(negative) => if negative then "m" else "p"
    case NaN => "n"
  }

  ghost function Print(j: Json): string
    decreases j
  {
    match j
    case Null => "n"
    case Bool(b) => if b then "t" else "f"
    case Int(n) => "i" + Signed(n)
    case Float(x) => "d" + Floating(x)
    case Str(s) => "s" + Quoted(s)
    case Arr(items) => "[" + Items(j, 0)
    case Obj(fields) => "{" + (Fields(j, fields.Keys) + "}")
  }

  ghost function Items(j: Json, i: nat): string
    requires j.Arr? && i <= |j.items|
    decreases j, |j.items| - i
  {
    if i == |j.items| then "." else "," + (Print(j.items[i]) + Items(j, i + 1))
  }

  ghost function Fields(j: Json, keys: set<string>): string
    requires j.Obj? && keys <= j.fields.Keys
    decreases j, |keys|
  {
    if keys == {} then "."
    else var k :| k in keys; "," + (Quoted(k) + (Print(j.fields[k]) + Fields(j, keys - {k})))
  }

  // ----- reading it is unambiguous -----

  // Two texts that start with one character each.
  lemma Peel(c: string, x: string, s: string, d: string, y: string, t: string)
    requires |c| == 1 && |d| == 1 && (c + x) + s == (d + y) + t
    ensures c == d && x + s == y + t
  {
    assert ((c + x) + s)[0] == c[0] && ((d + y) + t)[0] == d[0];
    assert x + s == ((c + x) + s)[1..] && y + t == ((d + y) + t)[1..];
  }

  lemma Regroup(x: string, y: string, s: string)
    ensures (x + y) + s == x + (y + s)
  {
  }

  lemma {:induction false} UnaryIsPrefixFree(m: nat, n: nat, s: string, t: string)
    requires Unary(m) + s == Unary(n) + t
    ensures m == n && s == t
  {
    if m == 0 || n == 0 {
      assert (Unary(m) + s)[0] == (if m == 0 then '.' else '1');
      assert (Unary(n) + t)[0] == (if n == 0 then '.' else '1');
      assert s == (Unary(m) + s)[1..] && t == (Unary(n) + t)[1..];
    } else {
      Peel("1", Unary(m - 1), s, "1", Unary(n - 1), t);
      UnaryIsPrefixFree(m - 1, n - 1, s, t);
    }
  }

  lemma SignedIsPrefixFree(m: int, n: int, s: string, t: string)
    requires Signed(m) + s == Signed(n) + t
    ensures m == n && s == t
  {
    Peel(if m < 0 then "-" else "+", Unary(Abs(m)), s, if n < 0 then "-" else "+", Unary(Abs(n)), t);
    UnaryIsPrefixFree(Abs(m), Abs(n), s, t);
  }

  lemma FloatingIsPrefixFree(x: FloatValue, y: FloatValue, s: string, t: string)
    requires Floating(x) + s == Floating(y) + t
    ensures x == y && s == t
  {
    assert (Floating(x) + s)[0] == Floating(x)[0] && (Floating(y) + t)[0] == Floating(y)[0];
    assert x.Finite? <==> y.Finite?;
    if x.Finite? {
      var u, v := x.d, y.d;
      hide Signed;
      Peel("d", Signed(u.mantissa) + Signed(u.exponent), s, "d", Signed(v.mantissa) + Signed(v.exponent), t);
      Regroup(Signed(u.mantissa), Signed(u.exponent), s);
      Regroup(Signed(v.mantissa), Signed(v.exponent), t);
      SignedIsPrefixFree(u.mantissa, v.mantissa, Signed(u.exponent) + s, Signed(v.exponent) + t);
      SignedIsPrefixFree(u.exponent, v.exponent, s, t);
    } else {
      assert s == (Floating(x) + s)[1..] && t == (Floating(y) + t)[1..];
    }
  }

  lemma {:induction false} QuotedIsPrefixFree(a: string, b: string, s: string, t: string)
    requires Quoted(a) + s == Quoted(b) + t
    ensures a == b && s == t
  {
    if a == "" || b == "" {
      assert (Quoted(a) + s)[0] == (if a == "" then '.' else ',');
      assert (Quoted(b) + t)[0] == (if b == "" then '.' else ',');
      assert s == (Quoted(a) + s)[1..] && t == (Quoted(b) + t)[1..];
    } else {
      var u, v := Unary(a[0] as int), Unary(b[0] as int);
      Peel(",", u + Quoted(a[1..]), s, ",", v + Quoted(b[1..]), t);
      Regroup(u, Quoted(a[1..]), s);
      Regroup(v, Quoted(b[1..]), t);
      UnaryIsPrefixFree(a[0] as int, b[0] as int, Quoted(a[1..]) + s, Quoted(b[1..]) + t);
      QuotedIsPrefixFree(a[1..], b[1..], s, t);
      assert a == [a[0]] + a[1..] && b == [b[0]] + b[1..];
    }
  }

  // The kind of a value shows in the first character of its text.
  function Kind(j: Json): char {
    match j
    case Null => 'n'
    case Bool(b) => if b then 't' else 'f'
    case Int(_) => 'i'
    case Float(_) => 'd'
    case Str(_) => 's'
    case Arr(_) => '['
    case Obj(_) => '{'
  }

  ghost function Rest(j: Json): string
    decreases j
  {
    match j
    case Int(n) => Signed(n)
    case Float(x) => Floating(x)
    case Str(s) => Quoted(s)
    case Arr(items) => Items(j, 0)
    case Obj(fields) => Fields(j, fields.Keys) + "}"
    case _ => ""
  }

  lemma KindThenRest(j: Json)
    ensures Print(j) == [Kind(j)] + Rest(j)
  {
    hide Signed, Quoted, Items, Fields;
  }

  lemma {:induction false} PrintIsPrefixFree(a: Json, b: Json, s: string, t: string)
    requires Print(a) + s == Print(b) + t
    ensures a == b && s == t
    decreases a
  {
    hide Print, Signed, Floating, Quoted, Items, Fields;
    KindThenRest(a);
    KindThenRest(b);
    Peel([Kind(a)], Rest(a), s, [Kind(b)], Rest(b), t);
    assert Kind(a) == Kind(b);
    match a
    case Null => EmptyRest(a, b, s, t);
    case Bool(_) => EmptyRest(a, b, s, t);
    case Int(n) => SignedIsPrefixFree(n, b.n, s, t);
    case Float(x) => FloatingIsPrefixFree(x, b.x, s, t);
    case Str(x) => QuotedIsPrefixFree(x, b.s, s, t);
    case Arr(items) =>
      ItemsArePrefixFree(a, 0, b, 0, s, t);
      assert items[0..] == items && b.items[0..] == b.items;
    case Obj(fields) =>
      Regroup(Fields(a, fields.Keys), "}", s);
      Regroup(Fields(b, b.fields.Keys), "}", t);
      FieldsArePrefixFree(a, fields.Keys, b, b.fields.Keys, "}" + s, "}" + t);
      assert s == ("}" + s)[1..] && t == ("}" + t)[1..];
      assert fields == b.fields;
  }

  lemma EmptyRest(a: Json, b: Json, s: string, t: string)
    requires (a.Null? || a.Bool?) && Kind(a) == Kind(b) && Rest(a) + s == Rest(b) + t
    ensures a == b && s == t
  {
    assert "" + s == s && "" + t == t;
  }

  lemma {:induction false} ItemsArePrefixFree(a: Json, i: nat, b: Json, k: nat, s: string, t: string)
    requires a.Arr? && i <= |a.items| && b.Arr? && k <= |b.items|
    requires Items(a, i) + s == Items(b, k) + t
    ensures a.items[i..] == b.items[k..] && s == t
    decreases a, |a.items| - i
  {
    hide Print;
    if i == |a.items| || k == |b.items| {
      assert (Items(a, i) + s)[0] == (if i == |a.items| then '.' else ',');
      assert (Items(b, k) + t)[0] == (if k == |b.items| then '.' else ',');
      assert s == (Items(a, i) + s)[1..] && t == (Items(b, k) + t)[1..];
    } else {
      var u, v, x, y := Print(a.items[i]), Print(b.items[k]), Items(a, i + 1), Items(b, k + 1);
      Peel(",", u + x, s, ",", v + y, t);
      Regroup(u, x, s);
      Regroup(v, y, t);
      PrintIsPrefixFree(a.items[i], b.items[k], x + s, y + t);
      ItemsArePrefixFree(a, i + 1, b, k + 1, s, t);
      assert a.items[i..] == [a.items[i]] + a.items[i + 1..] && b.items[k..] == [b.items[k]] + b.items[k + 1..];
    }
  }

  lemma {:induction false} FieldsArePrefixFree(a: Json, ka: set<string>, b: Json, kb: set<string>, s: string, t: string)
    requires a.Obj? && ka <= a.fields.Keys && b.Obj? && kb <= b.fields.Keys
    requires Fields(a, ka) + s == Fields(b, kb) + t
    ensures ka == kb && s == t
    ensures forall k :: k in ka ==> a.fields[k] == b.fields[k]
    decreases a, |ka|
  {
    hide Print, Quoted;
    if ka == {} || kb == {} {
      assert (Fields(a, ka) + s)[0] == (if ka == {} then '.' else ',');
      assert (Fields(b, kb) + t)[0] == (if kb == {} then '.' else ',');
      assert s == (Fields(a, ka) + s)[1..] && t == (Fields(b, kb) + t)[1..];
    } else {
      var k, x := NextField(a, ka);
      var l, y := NextField(b, kb);
      var u, v := Print(a.fields[k]), Print(b.fields[l]);
      hide Fields;
      Peel(",", Quoted(k) + (u + x), s, ",", Quoted(l) + (v + y), t);
      Regroup(Quoted(k), u + x, s);
      Regroup(Quoted(l), v + y, t);
      QuotedIsPrefixFree(k, l, (u + x) + s, (v + y) + t);
      Regroup(u, x, s);
      Regroup(v, y, t);
      PrintIsPrefixFree(a.fields[k], b.fields[l], x + s, y + t);
      FieldsArePrefixFree(a, ka - {k}, b, kb - {k}, s, t);
      assert ka == ka - {k} + {k} && kb == kb - {k} + {k};
    }
  }

  lemma NextField(j: Json, keys: set<string>) returns (k: string, rest: string)
    requires j.Obj? && keys <= j.fields.Keys && keys != {}
    ensures k in keys && rest == Fields(j, keys - {k})
    ensures Fields(j, keys) == "," + (Quoted(k) + (Print(j.fields[k]) + rest))
  {
    hide Print, Quoted;
    var key :| key in keys && Fields(j, keys) == "," + (Quoted(key) + (Print(j.fields[key]) + Fields(j, keys - {key})));
    k, rest := key, Fields(j, keys - {key});
  }

  // ----- a faithful codec -----

  ghost predicate LongNumber(text: string) {
    exists s :: Canonical(s) && |s| > MAX_DIGITS && text == NumberField(s)
  }

  ghost function Read(text: string): Reading {
    if j: Json :| Print(j) == text then Parsed(j)
    else if LongNumber(text) then Refused
    else NotJson
  }

  lemma PrintReadsBack(j: Json)
    ensures Read(Print(j)) == Parsed(j)
  {
    hide Print;
    forall k: Json | Print(k) == Print(j) ensures k == j {
      assert Print(k) + "" == Print(j) + "";
      PrintIsPrefixFree(k, j, "", "");
    }
  }

  // No value is printed with a quote behind the opening brace.
  lemma NumberFieldsAreNotPrinted(j: Json, numeral: string)
    ensures Print(j) != NumberField(numeral)
  {
    KindThenRest(j);
    hide Print;
    assert NumberField(numeral)[0] == '{' && NumberField(numeral)[1] == '"';
    if Kind(j) == '{' {
      assert j.Obj? && Print(j)[1] == Rest(j)[0] == Fields(j, j.fields.Keys)[0];
    }
  }

  /** The hypotheses on JSON printing and reading can be met. */
  lemma FaithfulCodecsExist()
    ensures exists codec: Codec :: Faithful(codec) && Braced(codec) && LimitsDigits(codec)
  {
    var codec := Codec(Print, Read);
    forall j ensures codec.read(codec.print_(j)) == Parsed(j) {
      PrintReadsBack(j);
    }
    forall o ensures var text := codec.print_(Obj(o)); |text| >= 2 && text[0] == '{' && text[|text| - 1] == '}' {
      KindThenRest(Obj(o));
    }
    forall s | Canonical(s) && |s| > MAX_DIGITS ensures codec.read(NumberField(s)) == Refused {
      forall j ensures Print(j) != NumberField(s) {
        NumberFieldsAreNotPrinted(j, s);
      }
      assert LongNumber(NumberField(s));
    }
    assert Faithful(codec) && Braced(codec) && LimitsDigits(codec);
  }
}
