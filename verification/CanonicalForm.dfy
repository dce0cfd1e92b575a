/** The form of the canonical text: no blanks, keys in order, the escapes that Python writes. */
module CanonicalForm {
  import opened CanonicalJson
  import opened CanonicalText
  import opened Numerals

  function Join(texts: seq<string>): string {
    if texts == [] then "" else if |texts| == 1 then texts[0] else Join(texts[..|texts| - 1]) + "," + texts[|texts| - 1]
  }

  lemma {:induction false} JoinCons(first: string, rest: seq<string>)
    ensures Join([first] + rest) == if rest == [] then first else first + "," + Join(rest)
  {
    if rest == [] {
      assert [first] + rest == [first];
    } else {
      var n := |rest| - 1;
      var all := [first] + rest;
      assert all[..|all| - 1] == [first] + rest[..n] && all[|all| - 1] == rest[n];
      JoinCons(first, rest[..n]);
      if n == 0 {
        assert rest[..n] == [];
      } else {
        assert first + "," + Join(rest[..n]) + "," + rest[n] == first + "," + (Join(rest[..n]) + "," + rest[n]);
      }
    }
  }

  ghost function Printed(items: seq<Value>): (r: seq<string>)
    ensures |r| == |items| && forall i | 0 <= i < |r| :: r[i] == Print(items[i])
  {
    if items == [] then [] else [Print(items[0])] + Printed(items[1..])
  }

  /** A list is its items between brackets, separated by bare commas. */
  lemma {:induction false} ListForm(items: seq<Value>)
    ensures Print(List(items)) == "[" + Join(Printed(items)) + "]"
  {
    ItemsForm(items);
  }

  lemma {:induction false} ItemsForm(items: seq<Value>)
    ensures PrintItems(items) == Join(Printed(items))
  {
    if items != [] {
      ItemsForm(items[1..]);
      JoinCons(Print(items[0]), Printed(items[1..]));
    }
  }

  ghost function PrintedEntries(v: Value, keys: seq<Text>): (r: seq<string>)
    requires v.Dict? && forall k | k in keys :: k in v.entries
    ensures |r| == |keys|
    ensures forall i | 0 <= i < |r| :: keys[i] in v.entries && r[i] == Quoted(keys[i]) + ":" + Print(v.entries[keys[i]])
  {
    if keys == [] then []
    else [Quoted(keys[0]) + ":" + Print(v.entries[keys[0]])] + PrintedEntries(v, keys[1..])
  }

  lemma {:induction false} EntriesForm(v: Value, keys: seq<Text>)
    requires v.Dict? && forall k | k in keys :: k in v.entries
    ensures PrintEntries(v, keys) == Join(PrintedEntries(v, keys))
  {
    if keys != [] {
      EntriesForm(v, keys[1..]);
      JoinCons(Quoted(keys[0]) + ":" + Print(v.entries[keys[0]]), PrintedEntries(v, keys[1..]));
    }
  }

  /** A dict is its entries between braces, keys ascending, with bare colons and commas. */
  lemma {:induction false} DictForm(entries: map<Text, Value>)
    ensures Print(Dict(entries)) == "{" + Join(PrintedEntries(Dict(entries), SortedKeys(entries.Keys))) + "}"
  {
    EntriesForm(Dict(entries), SortedKeys(entries.Keys));
  }

  lemma {:induction false} ScalarForms(b: bool, n: int, s: Text)
    ensures Print(Null) == "null" && Print(Bool(b)) == (if b then "true" else "false")
    ensures Print(Int(n)) == (if n < 0 then "-" + Digits(-n) else Digits(n))
    ensures Print(Str(s)) == "\"" + Escaped(s) + "\""
  {
  }

  /** A string is written character by character. */
  lemma {:induction false} EscapedConcat(a: Text, b: Text)
    ensures Escaped(a + b) == Escaped(a) + Escaped(b)
  {
    if a == [] {
      assert a + b == b;
    } else {
      assert (a + b)[1..] == a[1..] + b;
      EscapedConcat(a[1..], b);
    }
  }

  /** The lower-case hexadecimal digits of a code unit, most significant first. */
  lemma {:induction false} Hex4Is(n: nat)
    requires n < 0x10000
    ensures var h := "0123456789abcdef";
            Hex4(n) == [h[n / 0x1000], h[n / 0x100 % 0x10], h[n / 0x10 % 0x10], h[n % 0x10]]
  {
    forall d | 0 <= d < 16 ensures HexDigit(d) == "0123456789abcdef"[d] { HexDigitIs(d); }
  }

  lemma {:induction false} HexDigitIs(d: nat)
    requires d < 16
    ensures HexDigit(d) == "0123456789abcdef"[d]
  {
  }

  /** Printable ASCII stands for itself, quotation mark and backslash behind a backslash; five control characters have
      a letter, everything else in the Basic Multilingual Plane its code, and a character above it its surrogates. */
  lemma {:induction false} EscapesAre(p: Point)
    ensures p == '\"' as int ==> Escaped([p]) == "\\\""
    ensures p == '\\' as int ==> Escaped([p]) == "\\\\"
    ensures p == '\n' as int ==> Escaped([p]) == "\\n"
    ensures p == '\r' as int ==> Escaped([p]) == "\\r"
    ensures p == '\t' as int ==> Escaped([p]) == "\\t"
    ensures p == 12 ==> Escaped([p]) == "\\f"
    ensures p == 8 ==> Escaped([p]) == "\\b"
    ensures ' ' as int <= p <= '~' as int && p != '\"' as int && p != '\\' as int ==> Escaped([p]) == [p as char]
    ensures (p < ' ' as int && p !in {8, 9, 10, 12, 13}) || '~' as int < p < 0x10000 ==> Escaped([p]) == "\\u" + Hex4(p)
    ensures p >= 0x10000 ==>
              var rest := p - 0x10000;
              Escaped([p]) == "\\u" + Hex4(0xD800 + rest / 0x400) + "\\u" + Hex4(0xDC00 + rest % 0x400)
  {
    assert [p][1..] == [];
    assert Escaped([p]) == EscapePoint(p) + Escaped([]) == EscapePoint(p);
    hide Escaped, Hex4;
  }
}
