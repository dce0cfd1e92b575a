/** The canonical JSON printer, and a reader for what it prints. */
module CanonicalJson {
  import opened CanonicalText
  import opened Numerals
  import opened Ordering
  import opened Wrappers

  /** A value with integer numbers and string keys. Python's dicts compare without regard to key order,
      as maps do. */
  datatype Value =
    | Null
    | Bool(b: bool)
    | Int(n: int)
    | Str(s: Text)
    | List(items: seq<Value>)
    | Dict(entries: map<Text, Value>)

  // ----- sorted keys -----

  ghost predicate LeastKey(keys: set<Text>, k: Text) {
    k in keys && forall j | j in keys :: LexLe(k, j)
  }

  lemma {:induction false} LeastKeyExists(keys: set<Text>)
    requires keys != {}
    ensures exists k :: LeastKey(keys, k)
    decreases |keys|
  {
    var x :| x in keys;
    LexTotal(x, x);
    if keys == {x} {
      assert LeastKey(keys, x);
    } else {
      assert keys - {x} != {};
      LeastKeyExists(keys - {x});
      var m: Text :| LeastKey(keys - {x}, m);
      LexTotal(x, m);
      assert forall j | j in keys :: j == x || j in keys - {x};
      if LexLe(m, x) {
        assert LeastKey(keys, m);
      } else {
        forall j | j in keys && j != x ensures LexLe(x, j) { LexTransitive(x, m, j); }
        assert LeastKey(keys, x);
      }
    }
  }

  /** `sorted(obj.keys())`: code points, least first. */
  ghost function SortedKeys(keys: set<Text>): (r: seq<Text>)
    ensures forall k :: k in r <==> k in keys
    ensures keys == {} <==> r == []
    decreases |keys|
  {
    if keys == {} then []
    else
      LeastKeyExists(keys);
      var k :| LeastKey(keys, k);
      [k] + SortedKeys(keys - {k})
  }

  ghost predicate Increasing(r: seq<Text>) {
    Distinct(r) && forall i, j | 0 <= i < j < |r| :: LexLe(r[i], r[j])
  }

  lemma {:induction false} IncreasingCons(k: Text, r: seq<Text>)
    requires Increasing(r) && forall x | x in r :: LexLe(k, x) && x != k
    ensures Increasing([k] + r)
  {
    hide LexLe;
    assert forall j | 0 <= j < |r| :: r[j] in r;
  }

  lemma {:induction false} KeysAreSorted(keys: set<Text>)
    ensures Increasing(SortedKeys(keys))
    decreases |keys|
  {
    if keys != {} {
      LeastKeyExists(keys);
      var k: Text :| LeastKey(keys, k) && SortedKeys(keys) == [k] + SortedKeys(keys - {k});
      hide Increasing, LexLe;
      KeysAreSorted(keys - {k});
      IncreasingCons(k, SortedKeys(keys - {k}));
    } else {
      assert SortedKeys(keys) == [];
    }
  }

  // ----- writing -----

  function Decimal(n: int): string {
    if n < 0 then ['-'] + Digits(-n) else Digits(n)
  }

  /** `canonical_json`. */
  ghost function Print(v: Value): string
    decreases v, 1, 0
  {
    match v
    case Null => "null"
    case Bool(b) => if b then "true" else "false"
    case Int(n) => Decimal(n)
    case Str(s) => Quoted(s)
    case List(items) => ['['] + PrintItems(items) + [']']
    case Dict(entries) => ['{'] + PrintEntries(v, SortedKeys(entries.Keys)) + ['}']
  }

  ghost function PrintItems(items: seq<Value>): string
    decreases items, 0, 0
  {
    if items == [] then []
    else if |items| == 1 then Print(items[0])
    else Print(items[0]) + [','] + PrintItems(items[1..])
  }

  ghost function PrintEntries(v: Value, keys: seq<Text>): string
    requires v.Dict? && forall k | k in keys :: k in v.entries
    decreases v, 0, |keys|
  {
    if keys == [] then []
    else
      var entry := Quoted(keys[0]) + [':'] + Print(v.entries[keys[0]]);
      if |keys| == 1 then entry else entry + [','] + PrintEntries(v, keys[1..])
  }

  // ----- reading: RFC 8259, sections 2 to 6 -----

  predicate Blank(c: char) { c == ' ' || c == '\t' || c == '\n' || c == '\r' }

  function SkipBlanks(s: string): (r: string)
    ensures |r| <= |s|
    ensures r != "" ==> !Blank(r[0])
  {
    if s != "" && Blank(s[0]) then SkipBlanks(s[1..]) else s
  }

  /** An integer has no leading zeros. */
  function ParseNat(s: string): (r: Option<(nat, string)>)
    ensures r.Some? ==> |r.value.1| < |s|
  {
    if s == "" || !IsDigit(s[0]) then None
    else if s[0] == '0' then Some((0, s[1..]))
    else Some(Scan(s[0] as nat - '0' as nat, s[1..]))
  }

  function ParseInt(s: string): (r: Option<(Value, string)>)
    ensures r.Some? ==> |r.value.1| < |s|
  {
    var negative := s != "" && s[0] == '-';
    var m := ParseNat(if negative then s[1..] else s);
    if m.None? then None else Some((Int(if negative then -(m.value.0 as int) else m.value.0 as int), m.value.1))
  }

  function ParseWord(s: string): (r: Option<(Value, string)>)
    ensures r.Some? ==> |r.value.1| < |s|
  {
    if "null" <= s then Some((Null, s[4..]))
    else if "true" <= s then Some((Bool(true), s[4..]))
    else if "false" <= s then Some((Bool(false), s[5..]))
    else None
  }

  function Starts(s: string, c: char): bool { s != "" && s[0] == c }

  function ParseValue(s: string): (r: Option<(Value, string)>)
    ensures r.Some? ==> |r.value.1| < |s|
    decreases |s|, 1
  {
    var t := SkipBlanks(s);
    if t == "" then None
    else if t[0] == '"' then
      var text := ParseChars(t[1..]);
      if text.None? then None else Some((Str(text.value.0), text.value.1))
    else if t[0] == '[' then
      var u := SkipBlanks(t[1..]);
      if Starts(u, ']') then Some((List([]), u[1..]))
      else
        var items := ParseItems(u);
        if items.None? then None else Some((List(items.value.0), items.value.1))
    else if t[0] == '{' then
      var u := SkipBlanks(t[1..]);
      if Starts(u, '}') then Some((Dict(map[]), u[1..])) else ParseEntries(u, map[])
    else if t[0] == '-' || IsDigit(t[0]) then ParseInt(t)
    else ParseWord(t)
  }

  function ParseItems(s: string): (r: Option<(seq<Value>, string)>)
    ensures r.Some? ==> |r.value.1| < |s|
    decreases |s|, 2
  {
    var first := ParseValue(s);
    if first.None? then None
    else
      var u := SkipBlanks(first.value.1);
      if Starts(u, ']') then Some(([first.value.0], u[1..]))
      else if Starts(u, ',') then
        var rest := ParseItems(u[1..]);
        if rest.None? then None else Some(([first.value.0] + rest.value.0, rest.value.1))
      else None
  }

  /** A key, a colon, a value. */
  function ParseEntry(s: string): (r: Option<(Text, Value, string)>)
    ensures r.Some? ==> |r.value.2| < |s|
    decreases |s|, 2
  {
    var t := SkipBlanks(s);
    if !Starts(t, '"') then None
    else
      var key := ParseChars(t[1..]);
      if key.None? then None
      else
        var u := SkipBlanks(key.value.1);
        if !Starts(u, ':') then None
        else
          var value := ParseValue(u[1..]);
          if value.None? then None else Some((key.value.0, value.value.0, value.value.1))
  }

  /** A repeated key keeps its last value. */
  function ParseEntries(s: string, acc: map<Text, Value>): (r: Option<(Value, string)>)
    ensures r.Some? ==> |r.value.1| < |s| && r.value.0.Dict?
    decreases |s|, 3
  {
    var entry := ParseEntry(s);
    if entry.None? then None
    else
      var acc' := acc[entry.value.0 := entry.value.1];
      var u := SkipBlanks(entry.value.2);
      if Starts(u, '}') then Some((Dict(acc'), u[1..]))
      else if Starts(u, ',') then ParseEntries(u[1..], acc')
      else None
  }

  /** A whole text. */
  function Parse(s: string): Option<Value> {
    var v := ParseValue(s);
    if v.Some? && SkipBlanks(v.value.1) == "" then Some(v.value.0) else None
  }

  // ----- reading back what was written -----

  /** No string at any depth, key or value, has adjacent surrogates. */
  ghost predicate Clean(v: Value) {
    match v
    case Str(s) => NoPairs(s)
    case List(items) => forall i | 0 <= i < |items| :: Clean(items[i])
    case Dict(entries) => forall k | k in entries :: NoPairs(k) && Clean(entries[k])
    case _ => true
  }

  /** What may follow a value: the end, white space, a comma or a closing bracket. */
  predicate Ends(t: string) {
    t != "" ==> Blank(t[0]) || t[0] == ',' || t[0] == ']' || t[0] == '}'
  }

  lemma {:induction false} Around(a: string, b: string, c: string, t: string)
    ensures a + b + c + t == a + (b + (c + t))
  {
  }

  lemma {:induction false} NatBack(n: nat, t: string)
    requires Ends(t)
    ensures ParseNat(Digits(n) + t) == Some((n, t))
  {
    var s := Digits(n) + t;
    FirstDigit(n);
    assert s[0] == Digits(n)[0];
    if n == 0 {
      assert s[1..] == t;
    } else {
      ScanDigits(n, t);
      assert Scan(0, s) == Scan(s[0] as nat - '0' as nat, s[1..]);
      assert Scan(n, t) == (n, t);
    }
  }

  lemma {:induction false} IntBack(n: int, t: string)
    requires Ends(t)
    ensures ParseValue(Decimal(n) + t) == Some((Int(n), t))
  {
    var s := Decimal(n) + t;
    var m: nat := if n < 0 then -n else n;
    FirstDigit(m);
    NatBack(m, t);
    hide Digits, ParseNat, ParseItems, ParseEntries, ParseChars, ParseWord;
    if n < 0 {
      assert s[1..] == Digits(m) + t;
    } else {
      assert s[0] == Digits(m)[0];
    }
    assert SkipBlanks(s) == s;
    assert ParseInt(s) == Some((Int(n), t));
  }

  lemma {:induction false} WordBack(v: Value, t: string)
    requires v.Null? || v.Bool?
    ensures ParseValue(Print(v) + t) == Some((v, t))
  {
    var w := Print(v);
    var s := w + t;
    assert SkipBlanks(s) == s && w <= s && s[|w|..] == t;
  }

  lemma {:induction false} StringBack(s: Text, t: string)
    requires NoPairs(s)
    ensures Quoted(s) + t == ['"'] + (Escaped(s) + (['"'] + t))
    ensures ParseChars((Quoted(s) + t)[1..]) == Some((s, t))
  {
    StringRoundTripIff(s, t);
    var body := Escaped(s) + (['"'] + t);
    hide ParseChars, Escaped, NoPairs;
    Around(['"'], Escaped(s), ['"'], t);
    assert (['"'] + body)[1..] == body;
  }

  lemma {:induction false} TextBack(s: Text, t: string)
    requires NoPairs(s)
    ensures ParseValue(Quoted(s) + t) == Some((Str(s), t))
  {
    StringBack(s, t);
    hide Quoted, Escaped, ParseChars;
    assert SkipBlanks(Quoted(s) + t) == Quoted(s) + t;
  }

  /** Nothing printed starts with a blank or a closing bracket. */
  lemma {:induction false} PrintedStart(v: Value)
    ensures Print(v) != "" && !Blank(Print(v)[0]) && Print(v)[0] != ']'
  {
    match v
    case Int(n) =>
      if n >= 0 { FirstDigit(n); }
    case _ =>
  }

  lemma {:induction false} ItemsStart(items: seq<Value>)
    requires items != []
    ensures PrintItems(items) != "" && !Blank(PrintItems(items)[0]) && PrintItems(items)[0] != ']'
  {
    PrintedStart(items[0]);
    hide Print;
  }

  lemma {:induction false} EntriesStart(v: Value, keys: seq<Text>)
    requires v.Dict? && keys != [] && forall k | k in keys :: k in v.entries
    ensures PrintEntries(v, keys) != "" && PrintEntries(v, keys)[0] == '"'
  {
  }

  lemma {:induction false} OpenList(u: string)
    requires u != "" && !Blank(u[0]) && u[0] != ']'
    ensures ParseValue(['['] + u) == if ParseItems(u).None? then None
                                     else Some((List(ParseItems(u).value.0), ParseItems(u).value.1))
  {
    var s := ['['] + u;
    hide ParseItems;
    assert SkipBlanks(s) == s && s[1..] == u && SkipBlanks(u) == u;
  }

  lemma {:induction false} EmptyList(t: string)
    ensures ParseValue(['[', ']'] + t) == Some((List([]), t))
  {
    var s := ['[', ']'] + t;
    hide ParseItems;
    assert SkipBlanks(s) == s && s[1..] == [']'] + t && SkipBlanks(s[1..]) == s[1..] && s[1..][1..] == t;
  }

  lemma {:induction false} PrintedList(items: seq<Value>, t: string)
    ensures Print(List(items)) + t == ['['] + (PrintItems(items) + ([']'] + t))
    ensures items == [] ==> Print(List(items)) + t == ['[', ']'] + t
  {
    var body := PrintItems(items);
    assert items == [] ==> body == [];
    hide PrintItems;
    assert Print(List(items)) == ['['] + body + [']'];
    hide Print;
    Around(['['], body, [']'], t);
  }

  lemma {:induction false} ListBack(items: seq<Value>, t: string)
    requires items != [] ==> ParseItems(PrintItems(items) + ([']'] + t)) == Some((items, t))
    ensures ParseValue(Print(List(items)) + t) == Some((List(items), t))
  {
    hide PrintItems, Print, ParseValue, ParseItems;
    PrintedList(items, t);
    if items == [] {
      EmptyList(t);
    } else {
      ItemsStart(items);
      OpenList(PrintItems(items) + ([']'] + t));
    }
  }

  lemma {:induction false} OpenDict(u: string)
    requires u != "" && u[0] == '"'
    ensures ParseValue(['{'] + u) == ParseEntries(u, map[])
  {
    var s := ['{'] + u;
    hide ParseEntries;
    assert SkipBlanks(s) == s && s[1..] == u && SkipBlanks(u) == u;
  }

  lemma {:induction false} EmptyDict(t: string)
    ensures ParseValue(['{', '}'] + t) == Some((Dict(map[]), t))
  {
    var s := ['{', '}'] + t;
    hide ParseEntries;
    assert SkipBlanks(s) == s && s[1..] == ['}'] + t && SkipBlanks(s[1..]) == s[1..] && s[1..][1..] == t;
  }

  lemma {:induction false} PrintedDict(v: Value, t: string)
    requires v.Dict?
    ensures Print(v) + t == ['{'] + (PrintEntries(v, SortedKeys(v.entries.Keys)) + (['}'] + t))
    ensures v.entries == map[] ==> Print(v) + t == ['{', '}'] + t
    ensures v.entries != map[] ==> SortedKeys(v.entries.Keys) != []
  {
    var body := PrintEntries(v, SortedKeys(v.entries.Keys));
    assert v.entries == map[] ==> v.entries.Keys == {} && body == [];
    hide PrintEntries, SortedKeys;
    assert Print(v) == ['{'] + body + ['}'];
    hide Print;
    Around(['{'], body, ['}'], t);
    if v.entries != map[] {
      var k :| k in v.entries;
      assert k in v.entries.Keys;
    }
  }

  lemma {:induction false} DictBack(v: Value, t: string)
    requires v.Dict?
    requires v.entries != map[] ==>
               ParseEntries(PrintEntries(v, SortedKeys(v.entries.Keys)) + (['}'] + t), map[]) == Some((v, t))
    ensures ParseValue(Print(v) + t) == Some((v, t))
  {
    hide PrintEntries, SortedKeys, Print, ParseValue, ParseEntries;
    PrintedDict(v, t);
    if v.entries == map[] {
      EmptyDict(t);
    } else {
      var keys := SortedKeys(v.entries.Keys);
      EntriesStart(v, keys);
      OpenDict(PrintEntries(v, keys) + (['}'] + t));
    }
  }

  // ----- the round trip -----

  lemma {:induction false} CloseItems(s: string, v: Value, t: string)
    requires ParseValue(s) == Some((v, [']'] + t))
    ensures ParseItems(s) == Some(([v], t))
  {
    var r := [']'] + t;
    hide ParseValue;
    assert SkipBlanks(r) == r && r[1..] == t;
  }

  lemma {:induction false} MoreItems(s: string, v: Value, u: string, vs: seq<Value>, t: string)
    requires ParseValue(s) == Some((v, [','] + u))
    requires ParseItems(u) == Some((vs, t))
    ensures ParseItems(s) == Some(([v] + vs, t))
  {
    var r := [','] + u;
    hide ParseValue;
    assert SkipBlanks(r) == r && r[1..] == u;
  }

  lemma {:induction false} EntryBack(key: Text, v: Value, t: string)
    requires NoPairs(key) && ParseValue(Print(v) + t) == Some((v, t))
    ensures ParseEntry(Quoted(key) + [':'] + Print(v) + t) == Some((key, v, t))
  {
    hide ParseValue, Print, ParseChars, Escaped;
    var p := Print(v) + t;
    var u := [':'] + p;
    var s := Quoted(key) + u;
    Around(Quoted(key), [':'], Print(v), t);
    StringBack(key, u);
    assert u[1..] == p && s[0] == '"';
    hide Quoted;
    assert SkipBlanks(s) == s && SkipBlanks(u) == u;
  }

  lemma {:induction false} CloseEntries(s: string, acc: map<Text, Value>, key: Text, v: Value, t: string)
    requires ParseEntry(s) == Some((key, v, ['}'] + t))
    ensures ParseEntries(s, acc) == Some((Dict(acc[key := v]), t))
  {
    var r := ['}'] + t;
    hide ParseEntry;
    assert SkipBlanks(r) == r && r[1..] == t;
  }

  lemma {:induction false} MoreEntries(s: string, acc: map<Text, Value>, key: Text, v: Value, u: string)
    requires ParseEntry(s) == Some((key, v, [','] + u))
    ensures ParseEntries(s, acc) == ParseEntries(u, acc[key := v])
  {
    var r := [','] + u;
    hide ParseEntry;
    assert SkipBlanks(r) == r && r[1..] == u;
  }

  /** The accumulator once the given keys have been read. */
  ghost function Filled(acc: map<Text, Value>, entries: map<Text, Value>, keys: seq<Text>): map<Text, Value>
    requires forall k | k in keys :: k in entries
    decreases |keys|
  {
    if keys == [] then acc
    else
      assert keys[0] in keys && forall k | k in keys[1..] :: k in keys;
      Filled(acc[keys[0] := entries[keys[0]]], entries, keys[1..])
  }

  lemma {:induction false} FilledIsAll(acc: map<Text, Value>, entries: map<Text, Value>, keys: seq<Text>)
    requires forall k | k in keys :: k in entries
    requires forall k | k in acc :: k in entries && acc[k] == entries[k]
    requires forall k | k in entries :: k in acc || k in keys
    ensures Filled(acc, entries, keys) == entries
    decreases |keys|
  {
    if keys != [] {
      assert keys[0] in keys && forall k | k in keys[1..] :: k in keys;
      assert keys == [keys[0]] + keys[1..];
      FilledIsAll(acc[keys[0] := entries[keys[0]]], entries, keys[1..]);
    }
  }

  /** Reading what was printed gives the value back and leaves what followed it. */
  lemma {:induction false} ReadsValue(v: Value, t: string)
    requires Clean(v) && Ends(t)
    ensures ParseValue(Print(v) + t) == Some((v, t))
    decreases v, 1, 0
  {
    hide Print, ParseValue, ParseItems, ParseEntries, PrintItems, PrintEntries, SortedKeys;
    match v
    case Int(n) => PrintInt(n); IntBack(n, t);
    case Str(s) => PrintStr(s); TextBack(s, t);
    case List(items) =>
      if items != [] { ReadsItems(items, t); }
      ListBack(items, t);
    case Dict(entries) =>
      var keys := SortedKeys(entries.Keys);
      PrintedDict(v, t);
      if entries != map[] {
        ReadsEntries(v, keys, map[], t);
        FilledIsAll(map[], entries, keys);
      }
      DictBack(v, t);
    case _ => WordBack(v, t);
  }

  lemma {:induction false} PrintInt(n: int)
    ensures Print(Int(n)) == Decimal(n)
  {
  }

  lemma {:induction false} PrintStr(s: Text)
    ensures Print(Str(s)) == Quoted(s)
  {
  }

  lemma {:induction false} SeveralItems(items: seq<Value>, t: string)
    requires |items| >= 2
    ensures PrintItems(items) + t == Print(items[0]) + ([','] + (PrintItems(items[1..]) + t))
  {
    var rest := PrintItems(items[1..]);
    assert PrintItems(items) == Print(items[0]) + [','] + rest;
    hide Print, PrintItems;
    Around(Print(items[0]), [','], rest, t);
  }

  lemma {:induction false} ReadsItems(items: seq<Value>, t: string)
    requires items != [] && forall i | 0 <= i < |items| :: Clean(items[i])
    ensures ParseItems(PrintItems(items) + ([']'] + t)) == Some((items, t))
    decreases items, 0, 0
  {
    var close := [']'] + t;
    if |items| == 1 {
      assert PrintItems(items) == Print(items[0]);
      hide *;
      ReadsValue(items[0], close);
      CloseItems(PrintItems(items) + close, items[0], t);
      assert [items[0]] == items;
    } else {
      SeveralItems(items, close);
      var u := PrintItems(items[1..]) + close;
      assert Ends([','] + u);
      hide *;
      ReadsValue(items[0], [','] + u);
      ReadsItems(items[1..], t);
      MoreItems(PrintItems(items) + close, items[0], u, items[1..], t);
      assert [items[0]] + items[1..] == items;
    }
  }

  lemma {:induction false} ReadsEntries(v: Value, keys: seq<Text>, acc: map<Text, Value>, t: string)
    requires v.Dict? && Clean(v) && keys != [] && forall k | k in keys :: k in v.entries
    ensures ParseEntries(PrintEntries(v, keys) + (['}'] + t), acc) == Some((Dict(Filled(acc, v.entries, keys)), t))
    decreases v, 0, |keys|
  {
    var key := keys[0];
    assert key in keys;
    var value := v.entries[key];
    assert NoPairs(key) && Clean(value);
    var acc' := acc[key := value];
    var close := ['}'] + t;
    var s := PrintEntries(v, keys) + close;
    hide Print, ParseValue, ParseEntry, ParseEntries, Clean, NoPairs, Quoted;
    if |keys| == 1 {
      assert PrintEntries(v, keys) == Quoted(key) + [':'] + Print(value);
      assert keys[1..] == [];
      assert Filled(acc, v.entries, keys) == acc';
      hide PrintEntries, Filled;
      ReadsValue(value, close);
      EntryBack(key, value, close);
      CloseEntries(s, acc, key, value, t);
    } else {
      var entry, rest := Quoted(key) + [':'] + Print(value), PrintEntries(v, keys[1..]);
      var u := rest + close;
      assert PrintEntries(v, keys) == entry + [','] + rest;
      assert Filled(acc, v.entries, keys) == Filled(acc', v.entries, keys[1..]);
      hide PrintEntries, Filled;
      Around(entry, [','], rest, close);
      assert Ends([','] + u);
      ReadsValue(value, [','] + u);
      EntryBack(key, value, [','] + u);
      MoreEntries(s, acc, key, value, u);
      ReadsEntries(v, keys[1..], acc', t);
    }
  }

  // ----- what can be read -----

  lemma {:induction false} ReadIsClean(s: string)
    requires ParseValue(s).Some?
    ensures Clean(ParseValue(s).value.0)
    decreases |s|, 1
  {
    var t := SkipBlanks(s);
    hide ParseItems, ParseEntries, NoPairs, ParseChars;
    if t[0] == '"' {
      ReadHasNoPairs(t[1..]);
    } else if t[0] == '[' {
      var u := SkipBlanks(t[1..]);
      if !Starts(u, ']') { ReadItemsClean(u); }
    } else if t[0] == '{' {
      var u := SkipBlanks(t[1..]);
      if !Starts(u, '}') { ReadEntriesClean(u, map[]); }
    }
  }

  lemma {:induction false} ReadItemsClean(s: string)
    requires ParseItems(s).Some?
    ensures forall i | 0 <= i < |ParseItems(s).value.0| :: Clean(ParseItems(s).value.0[i])
    decreases |s|, 2
  {
    hide ParseValue, Clean;
    ReadIsClean(s);
    var u := SkipBlanks(ParseValue(s).value.1);
    if !Starts(u, ']') { ReadItemsClean(u[1..]); }
  }

  lemma {:induction false} ReadEntryClean(s: string)
    requires ParseEntry(s).Some?
    ensures NoPairs(ParseEntry(s).value.0) && Clean(ParseEntry(s).value.1)
    decreases |s|, 2
  {
    hide ParseValue, Clean, NoPairs, ParseChars;
    var t := SkipBlanks(s);
    ReadHasNoPairs(t[1..]);
    var u := SkipBlanks(ParseChars(t[1..]).value.1);
    ReadIsClean(u[1..]);
  }

  lemma {:induction false} ReadEntriesClean(s: string, acc: map<Text, Value>)
    requires ParseEntries(s, acc).Some? && Clean(Dict(acc))
    ensures Clean(ParseEntries(s, acc).value.0)
    decreases |s|, 3
  {
    hide ParseEntry, NoPairs;
    ReadEntryClean(s);
    var entry := ParseEntry(s).value;
    var acc' := acc[entry.0 := entry.1];
    assert Clean(Dict(acc'));
    hide Clean;
    var u := SkipBlanks(entry.2);
    if !Starts(u, '}') { ReadEntriesClean(u[1..], acc'); }
  }

  // ----- the results -----

  /** Reading the printed text gives the value back exactly when none of its strings has adjacent
      surrogates; everything a reader returns is such a value. */
  lemma {:induction false} RoundTripIff(v: Value)
    ensures Parse(Print(v)) == Some(v) <==> Clean(v)
  {
    hide ParseValue, Clean, Print;
    assert Print(v) + "" == Print(v);
    if Clean(v) {
      ReadsValue(v, "");
    } else if Parse(Print(v)) == Some(v) {
      ReadIsClean(Print(v));
    }
  }

  /** Printing what was read and reading that again changes nothing. */
  lemma {:induction false} ReadValuesRoundTrip(s: string)
    requires Parse(s).Some?
    ensures Clean(Parse(s).value) && Parse(Print(Parse(s).value)) == Parse(s)
  {
    hide ParseValue, Clean, Print;
    ReadIsClean(s);
    RoundTripIff(Parse(s).value);
  }

  /** Two values print the same exactly when they are equal up to key order. */
  lemma {:induction false} PrintedSameIff(a: Value, b: Value)
    requires Clean(a) && Clean(b)
    ensures Print(a) == Print(b) <==> a == b
  {
    hide Print, Parse, Clean;
    RoundTripIff(a);
    RoundTripIff(b);
  }

  /** Strings collide exactly when joining their surrogates makes them equal. */
  lemma {:induction false} StringsPrintSameIff(a: Text, b: Text)
    ensures Print(Str(a)) == Print(Str(b)) <==> Joined(a) == Joined(b)
  {
    JoinedEscapesSame(a);
    JoinedEscapesSame(b);
    ReadsBack(a, "");
    ReadsBack(b, "");
    hide ParseChars, Escaped, Joined;
    var q: string := ['"'];
    assert q + "" == q;
    assert Quoted(a)[1..] == Escaped(a) + q && Quoted(b)[1..] == Escaped(b) + q;
  }

  lemma {:induction false} PairEscape(high: Point, low: Point)
    requires IsHigh(high) && IsLow(low)
    ensures EscapePoint(Combine(high, low)) == EscapePoint(high) + EscapePoint(low)
  {
    hide UnicodeEscape;
  }

  lemma {:induction false} JoinedEscapesSame(s: Text)
    ensures Escaped(Joined(s)) == Escaped(s)
    decreases |s|
  {
    hide EscapePoint, Combine;
    if s == [] {
    } else if |s| >= 2 && IsHigh(s[0]) && IsLow(s[1]) {
      var p := Combine(s[0], s[1]);
      PairEscape(s[0], s[1]);
      EscapedStep(s, "");
      EscapedStep(s[1..], "");
      assert s[1..][1..] == s[2..];
      JoinedEscapesSame(s[2..]);
      assert Joined(s) == [p] + Joined(s[2..]);
      EscapedStep(Joined(s), "");
    } else {
      JoinedEscapesSame(s[1..]);
      assert Joined(s) == [s[0]] + Joined(s[1..]);
    }
  }

  /** A pair of lone surrogates prints as the character it would encode. */
  lemma {:induction false} LoneSurrogatesCollide()
    ensures Print(Str([0xD83D, 0xDE00])) == Print(Str([0x1F600]))
    ensures Parse(Print(Str([0xD83D, 0xDE00]))) != Some(Str([0xD83D, 0xDE00]))
  {
    var s: Text := [0xD83D, 0xDE00];
    assert s[2..] == [];
    assert Joined(s) == [0x1F600] + Joined([]);
    assert Joined([0x1F600]) == [0x1F600] + Joined([]);
    StringsPrintSameIff(s, [0x1F600]);
    assert IsHigh(s[0]) && IsLow(s[1]) && !NoPairs(s);
    assert !Clean(Str(s));
    RoundTripIff(Str(s));
  }

  lemma {:induction false} SameIncreasing(a: seq<Text>, b: seq<Text>)
    requires Increasing(a) && Increasing(b) && forall k :: k in a <==> k in b
    ensures a == b
  {
    forall x: seq<int>, y: seq<int> | LexLe(x, y) && LexLe(y, x) ensures x == y { LexTotal(x, y); }
    DistinctSameMultiset(a, b);
    var le: (Text, Text) -> bool := (x: Text, y: Text) => LexLe(x, y);
    hide LexLe;
    SortedUnique(le, a, b);
  }

  /** The keys come out in one order however the dict was filled: any sorted listing of them is that order. */
  lemma {:induction false} KeyOrderForgotten(listing: seq<Text>, keys: set<Text>)
    requires Increasing(listing) && forall k :: k in listing <==> k in keys
    ensures listing == SortedKeys(keys)
  {
    KeysAreSorted(keys);
    hide SortedKeys, Increasing;
    SameIncreasing(listing, SortedKeys(keys));
  }

  // ----- ASCII -----

  lemma {:induction false} DigitsAscii(n: nat)
    ensures Ascii(Digits(n))
  {
    if n >= 10 { DigitsAscii(n / 10); }
  }

  lemma {:induction false} AsciiConcat(a: string, b: string)
    requires Ascii(a) && Ascii(b)
    ensures Ascii(a + b)
  {
  }

  lemma {:induction false} QuotedAscii(s: Text)
    ensures Ascii(Quoted(s))
  {
    EscapedIsAscii(s);
    hide Escaped;
  }

  /** The output is printable ASCII whatever the strings hold. */
  lemma {:induction false} PrintIsAscii(v: Value)
    ensures Ascii(Print(v))
    decreases v, 1, 0
  {
    match v
    case Int(n) => DigitsAscii(if n < 0 then -n else n);
    case Str(s) => QuotedAscii(s);
    case List(items) =>
      ItemsAscii(items);
      hide PrintItems;
    case Dict(entries) =>
      EntriesAscii(v, SortedKeys(entries.Keys));
      hide PrintEntries, SortedKeys;
    case _ =>
  }

  lemma {:induction false} ItemsAscii(items: seq<Value>)
    ensures Ascii(PrintItems(items))
    decreases items, 0, 0
  {
    if items != [] {
      PrintIsAscii(items[0]);
      ItemsAscii(items[1..]);
      assert Ascii([',']);
      hide Print, Ascii;
      AsciiConcat(Print(items[0]), [',']);
      AsciiConcat(Print(items[0]) + [','], PrintItems(items[1..]));
    }
  }

  lemma {:induction false} EntriesAscii(v: Value, keys: seq<Text>)
    requires v.Dict? && forall k | k in keys :: k in v.entries
    ensures Ascii(PrintEntries(v, keys))
    decreases v, 0, |keys|
  {
    assert Ascii([':']) && Ascii([',']);
    if keys != [] {
      var key := keys[0];
      var value := v.entries[key];
      QuotedAscii(key);
      PrintIsAscii(value);
      EntriesAscii(v, keys[1..]);
      hide Print, Ascii, Quoted;
      AsciiConcat(Quoted(key), [':']);
      AsciiConcat(Quoted(key) + [':'], Print(value));
      AsciiConcat(Quoted(key) + [':'] + Print(value), [',']);
      AsciiConcat(Quoted(key) + [':'] + Print(value) + [','], PrintEntries(v, keys[1..]));
    }
  }
}
