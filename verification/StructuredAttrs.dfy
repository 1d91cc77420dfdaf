/** The shell script that declares structured attributes, against a reader that follows
    the quoting rules of the shell (sections 2.2.1 and 2.2.2 of the POSIX Shell Command
    Language): backslash and single quotes, with plain characters standing for themselves.
    Arrays are as bash declares them, which refuses an empty subscript. */
module StructuredAttrs {
  import opened Wrappers

  const TWO_TO_63 := 0x8000_0000_0000_0000

  /** JSON numbers: 64-bit integers, or a finite float. */
  datatype Number = Whole(n: int) | Float(f: real)

  datatype Json =
    | Null
    | Bool(b: bool)
    | Num(number: Number)
    | Str(s: string)
    | Arr(values: seq<Json>)
    | Obj(entries: seq<(string, Json)>)

  // --------------------------------------------------------------------- the printer

  predicate Letter(c: char) { 'A' <= c <= 'Z' || 'a' <= c <= 'z' || c == '_' }

  predicate Digit(c: char) { '0' <= c <= '9' }

  predicate ValidName(s: string) {
    s != "" && Letter(s[0]) && forall i :: 0 < i < |s| ==> Letter(s[i]) || Digit(s[i])
  }

  function Decimal(n: nat): (r: string)
    ensures r != "" && forall i :: 0 <= i < |r| ==> Digit(r[i])
  {
    var d := ['0' + (n % 10) as char];
    if n < 10 then d else Decimal(n / 10) + d
  }

  function Signed(n: int): string {
    if n < 0 then "-" + Decimal(-n) else Decimal(n)
  }

  /** A float cast to a signed 64-bit integer saturates. */
  function Saturated(n: int): int {
    if n < -TWO_TO_63 then -TWO_TO_63 else if n >= TWO_TO_63 then TWO_TO_63 - 1 else n
  }

  predicate Scalar(v: Json) { !v.Arr? && !v.Obj? }

  /** Floats are good when they are whole. */
  predicate Good(v: Json)
    requires Scalar(v)
  {
    v.Num? && v.number.Float? ==> v.number.f.Floor as real == v.number.f
  }

  function Escaped(s: string): string {
    if s == "" then "" else (if s[0] == '\'' then "'\\''" else [s[0]]) + Escaped(s[1..])
  }

  function Quoted(s: string): string {
    "'" + Escaped(s) + "'"
  }

  /** What is written for a scalar. */
  function Simple(v: Json): string
    requires Scalar(v)
  {
    match v
    case Null => "''"
    case Bool(b) => if b then "1" else ""
    case Num(Whole(n)) => Signed(n)
    case Num(Float(f)) => Signed(Saturated(f.Floor))
    case Str(s) => Quoted(s)
  }

  lemma {:induction false} EscapedSnoc(s: string, c: char)
    ensures Escaped(s + [c]) == Escaped(s) + if c == '\'' then "'\\''" else [c]
  {
    if s == "" {
      assert Escaped([c]) == (if c == '\'' then "'\\''" else [c]) + Escaped([]);
    } else {
      assert (s + [c])[1..] == s[1..] + [c];
      EscapedSnoc(s[1..], c);
    }
  }

  method WriteQuoted(out: string, s: string) returns (out': string)
    ensures out' == out + Quoted(s)
  {
    out' := out + "'";
    for i := 0 to |s|
      invariant out' == out + ("'" + Escaped(s[..i]))
    {
      EscapedSnoc(s[..i], s[i]);
      ExtendBy(s, i);
      if s[i] == '\'' {
        out' := out' + "'\\''";
      } else {
        out' := out' + [s[i]];
      }
    }
    assert s[..|s|] == s;
    out' := out' + "'";
  }

  method WriteSimple(out: string, v: Json) returns (out': string)
    requires Scalar(v)
    ensures out' == out + Simple(v)
  {
    match v {
      case Null => out' := out + "''";
      case Bool(b) => if b { out' := out + "1"; } else { out' := out + ""; }
      case Num(Whole(n)) => out' := out + Signed(n);
      case Num(Float(f)) => out' := out + Signed(Saturated(f.Floor));
      case Str(s) => out' := WriteQuoted(out, s);
    }
  }

  // ---------------------------------------------------------------------- the reader

  predicate Plain(c: char) { Letter(c) || Digit(c) || c == '-' }

  /** Up to the closing quote, everything stands for itself. */
  function ReadQuoted(s: string): (r: Option<(string, string)>)
    ensures r.Some? ==> |r.value.1| < |s|
  {
    if s == "" then None
    else if s[0] == '\'' then Some(("", s[1..]))
    else match ReadQuoted(s[1..])
      case None => None
      case Some((v, rest)) => Some(([s[0]] + v, rest))
  }

  /** The value of the word at the front, and what follows it. */
  function ReadWord(s: string): (r: Option<(string, string)>)
    ensures r.Some? ==> |r.value.1| <= |s|
    decreases |s|
  {
    if s == "" then Some(("", s))
    else if s[0] == '\'' then
      match ReadQuoted(s[1..])
      case None => None
      case Some((q, rest)) => Prefixed(q, ReadWord(rest))
    else if s[0] == '\\' then
      if |s| == 1 then None
      else Prefixed(if s[1] == '\n' then "" else [s[1]], ReadWord(s[2..]))
    else if Plain(s[0]) then Prefixed([s[0]], ReadWord(s[1..]))
    else Some(("", s))
  }

  function Prefixed(p: string, r: Option<(string, string)>): Option<(string, string)> {
    match r
    case None => None
    case Some((v, rest)) => Some((p + v, rest))
  }

  predicate StartsWith(s: string, p: string) { |p| <= |s| && s[..|p|] == p }

  /** Words up to a closing parenthesis. */
  function ReadWords(s: string): (r: Option<(seq<string>, string)>)
    ensures r.Some? ==> |r.value.1| < |s|
    decreases |s|
  {
    if s == "" then None
    else if s[0] == ')' then Some(([], s[1..]))
    else if s[0] == ' ' then ReadWords(s[1..])
    else match ReadWord(s)
      case None => None
      case Some((w, rest)) =>
        if |rest| == |s| then None else
          match ReadWords(rest)
          case None => None
          case Some((ws, rest')) => Some(([w] + ws, rest'))
  }

  /** Bracketed keys with their values, up to a closing parenthesis; an empty subscript is
      refused. */
  function ReadPairs(s: string): (r: Option<(seq<(string, string)>, string)>)
    ensures r.Some? ==> |r.value.1| < |s|
    decreases |s|
  {
    if s == "" then None
    else if s[0] == ')' then Some(([], s[1..]))
    else if s[0] == ' ' then ReadPairs(s[1..])
    else if s[0] != '[' then None
    else match ReadWord(s[1..])
      case None => None
      case Some((k, rest)) =>
        if k == "" || !StartsWith(rest, "]=") then None else
          match ReadWord(rest[2..])
          case None => None
          case Some((v, rest')) =>
            match ReadPairs(rest')
            case None => None
            case Some((ps, rest'')) => Some(([(k, v)] + ps, rest''))
  }

  datatype Value = Text(text: string) | Indexed(words: seq<string>) | Keyed(pairs: seq<(string, string)>)

  /** The value after the equals sign, by the flag of the declaration. */
  function ReadValue(flag: char, s: string): (r: Option<(Value, string)>)
    ensures r.Some? ==> |r.value.1| <= |s|
  {
    if flag == ' ' then
      match ReadWord(s)
      case None => None
      case Some((w, rest)) => Some((Text(w), rest))
    else if s == "" || s[0] != '(' then None
    else if flag == 'a' then
      match ReadWords(s[1..])
      case None => None
      case Some((ws, rest)) => Some((Indexed(ws), rest))
    else
      match ReadPairs(s[1..])
      case None => None
      case Some((ps, rest)) => Some((Keyed(ps), rest))
  }

  /** `-a`, `-A` or no flag. */
  function ReadFlag(s: string): (char, string) {
    if StartsWith(s, "-a ") then ('a', s[3..])
    else if StartsWith(s, "-A ") then ('A', s[3..])
    else (' ', s)
  }

  /** The longest name at the front. */
  function ReadName(s: string): (r: (string, string))
    ensures |r.1| <= |s|
  {
    if s != "" && (Letter(s[0]) || Digit(s[0])) then
      var (n, rest) := ReadName(s[1..]);
      ([s[0]] + n, rest)
    else ("", s)
  }

  /** One declaration per line. */
  function ReadScript(s: string): Option<seq<(string, Value)>>
    decreases |s|
  {
    if s == "" then Some([])
    else if !StartsWith(s, "declare ") then None
    else
      var (flag, s1) := ReadFlag(s[8..]);
      var (name, s2) := ReadName(s1);
      if !StartsWith(s2, "=") || !ValidName(name) then None else
        match ReadValue(flag, s2[1..])
        case None => None
        case Some((v, s3)) =>
          if !StartsWith(s3, "\n") then None else
            match ReadScript(s3[1..])
            case None => None
            case Some(rest) => Some([(name, v)] + rest)
  }

  // ---------------------------------------------------------------------- the script

  /** The words of an array, each followed by a space. */
  function ArrayText(values: seq<Json>): string
    requires forall v :: v in values ==> Scalar(v)
  {
    if values == [] then "" else Simple(values[0]) + " " + ArrayText(values[1..])
  }

  function ObjectText(entries: seq<(string, Json)>): string
    requires forall e :: e in entries ==> Scalar(e.1)
  {
    if entries == [] then "" else
      "[" + Quoted(entries[0].0) + "]=" + Simple(entries[0].1) + " " + ObjectText(entries[1..])
  }

  /** Which values get a declaration. */
  predicate Representable(v: Json) {
    match v
    case Arr(values) => forall x :: x in values ==> Scalar(x) && Good(x)
    case Obj(entries) => forall e :: e in entries ==> Scalar(e.1) && Good(e.1)
    case _ => Good(v)
  }

  function FlagText(v: Json): string {
    if v.Arr? then "-a " else if v.Obj? then "-A " else ""
  }

  function ValueText(v: Json): string
    requires Representable(v)
  {
    match v
    case Arr(values) => "(" + ArrayText(values) + ")"
    case Obj(entries) => "(" + ObjectText(entries) + ")"
    case _ => Simple(v)
  }

  function Line(k: string, v: Json): string
    requires Representable(v)
  {
    "declare " + (FlagText(v) + (k + ("=" + (ValueText(v) + "\n"))))
  }

  function Script(attrs: seq<(string, Json)>): string {
    if attrs == [] then "" else EntryText(attrs[0]) + Script(attrs[1..])
  }

  function EntryText(e: (string, Json)): string {
    if Declared(e) then Line(e.0, e.1) else ""
  }

  // --------------------------------------------------------------- what it should mean

  /** How whole floats are taken: as the numbers they are, or as the writer casts them. */
  datatype Floats = Exact | Cast

  function ScalarText(v: Json, floats: Floats): string
    requires Scalar(v)
  {
    match v
    case Null => ""
    case Bool(b) => if b then "1" else ""
    case Num(Whole(n)) => Signed(n)
    case Num(Float(f)) => Signed(if floats == Exact then f.Floor else Saturated(f.Floor))
    case Str(s) => s
  }

  /** The elements of an array; `false` contributes none. */
  function Words(values: seq<Json>, floats: Floats): seq<string>
    requires forall v :: v in values ==> Scalar(v)
  {
    if values == [] then []
    else if values[0] == Bool(false) then Words(values[1..], floats)
    else [ScalarText(values[0], floats)] + Words(values[1..], floats)
  }

  function Pairs(entries: seq<(string, Json)>, floats: Floats): seq<(string, string)>
    requires forall e :: e in entries ==> Scalar(e.1)
  {
    if entries == [] then []
    else [(entries[0].0, ScalarText(entries[0].1, floats))] + Pairs(entries[1..], floats)
  }

  function ValueOf(v: Json, floats: Floats): Value
    requires Representable(v)
  {
    match v
    case Arr(values) => Indexed(Words(values, floats))
    case Obj(entries) => Keyed(Pairs(entries, floats))
    case _ => Text(ScalarText(v, floats))
  }

  /** The entry gets a declaration. */
  predicate Declared(e: (string, Json)) {
    ValidName(e.0) && Representable(e.1)
  }

  /** An object has no empty key. */
  predicate KeysNamed(v: Json) {
    v.Obj? ==> forall e :: e in v.entries ==> e.0 != ""
  }

  /** No declared object has an empty key. */
  predicate AllNamed(attrs: seq<(string, Json)>) {
    forall e :: e in attrs && Declared(e) ==> KeysNamed(e.1)
  }

  /** The valid-named, representable entries with their values. */
  function Meaning(attrs: seq<(string, Json)>, floats: Floats): seq<(string, Value)> {
    if attrs == [] then []
    else if Declared(attrs[0]) then
      [(attrs[0].0, ValueOf(attrs[0].1, floats))] + Meaning(attrs[1..], floats)
    else Meaning(attrs[1..], floats)
  }

  // ------------------------------------------------------------------- reading it back

  /** No word continues with what follows. */
  predicate Stops(tail: string) {
    tail == "" || (tail[0] != '\'' && tail[0] != '\\' && !Plain(tail[0]))
  }

  lemma {:induction false} EscapedReads(s: string, tail: string)
    requires Stops(tail)
    ensures ReadWord("'" + (Escaped(s) + ("'" + tail))) == Some((s, tail))
  {
    if s == "" {
      assert Escaped(s) + ("'" + tail) == "'" + tail;
      ClosingQuote(tail);
    } else {
      var more := Escaped(s[1..]) + ("'" + tail);
      EscapedReads(s[1..], tail);
      Associative(if s[0] == '\'' then "'\\''" else [s[0]], Escaped(s[1..]), "'" + tail);
      assert s == [s[0]] + s[1..];
      if s[0] == '\'' {
        EscapedQuote(more);
      } else {
        QuotedCons(s[0], more);
      }
    }
  }

  lemma ClosingQuote(tail: string)
    requires Stops(tail)
    ensures ReadWord("'" + ("'" + tail)) == Some(("", tail))
  {
    Skip("'" + ("'" + tail), '\'', "'" + tail);
    Skip("'" + tail, '\'', tail);
    assert ReadQuoted("'" + tail) == Some(("", tail));
    assert ReadWord(tail) == Some(("", tail));
    assert "" + "" == "";
  }

  /** A quote closes, an escaped quote follows, and the next part is opened again. */
  lemma EscapedQuote(more: string)
    ensures ReadWord("'" + ("'\\''" + more)) == Prefixed("'", ReadWord("'" + more))
  {
    var s := "'\\''" + more;
    assert ("'" + s)[1..] == s;
    assert ReadQuoted(s) == Some(("", s[1..]));
    assert s[1..][2..] == "'" + more;
    assert ReadWord(s[1..]) == Prefixed("'", ReadWord("'" + more));
    match ReadWord("'" + more) { case None => case Some(p) => assert "" + ("'" + p.0) == "'" + p.0; }
  }

  lemma PrefixedTwice(a: string, b: string, r: Option<(string, string)>)
    ensures Prefixed(a, Prefixed(b, r)) == Prefixed(a + b, r)
  {
    match r { case None => case Some(p) => Associative(a, b, p.0); }
  }

  /** What follows an opening quote. */
  lemma OpeningQuote(x: string)
    ensures ReadWord("'" + x) ==
            match ReadQuoted(x) case None => None case Some((q, rest)) => Prefixed(q, ReadWord(rest))
  {
    Skip("'" + x, '\'', x);
  }

  lemma QuotedChar(c: char, more: string)
    requires c != '\''
    ensures ReadQuoted([c] + more) == Prefixed([c], ReadQuoted(more))
  {
    Skip([c] + more, c, more);
  }

  lemma QuotedCons(c: char, more: string)
    requires c != '\''
    ensures ReadWord("'" + ([c] + more)) == Prefixed([c], ReadWord("'" + more))
  {
    OpeningQuote([c] + more);
    OpeningQuote(more);
    QuotedChar(c, more);
    match ReadQuoted(more) {
      case None =>
      case Some(q) => PrefixedTwice([c], q.0, ReadWord(q.1));
    }
  }

  lemma QuotedReads(s: string, tail: string)
    requires Stops(tail)
    ensures ReadWord(Quoted(s) + tail) == Some((s, tail))
  {
    EscapedReads(s, tail);
    assert Quoted(s) + tail == "'" + (Escaped(s) + ("'" + tail));
  }

  lemma {:induction false} PlainReads(p: string, tail: string)
    requires Stops(tail) && forall i :: 0 <= i < |p| ==> Plain(p[i])
    ensures ReadWord(p + tail) == Some((p, tail))
  {
    if p == "" {
      assert p + tail == tail;
    } else {
      PlainReads(p[1..], tail);
      assert (p + tail)[1..] == p[1..] + tail;
      assert p == [p[0]] + p[1..];
    }
  }

  lemma SignedPlain(n: int)
    ensures Signed(n) != "" && forall i :: 0 <= i < |Signed(n)| ==> Plain(Signed(n)[i])
  {
  }

  /** Whatever is written for a scalar is read back as its text. */
  lemma SimpleReads(v: Json, tail: string)
    requires Scalar(v) && Stops(tail)
    ensures ReadWord(Simple(v) + tail) == Some((ScalarText(v, Cast), tail))
  {
    match v {
      case Null => QuotedReads("", tail);
      case Str(s) => QuotedReads(s, tail);
      case Bool(b) => PlainReads(if b then "1" else "", tail);
      case Num(Whole(n)) => SignedPlain(n); PlainReads(Signed(n), tail);
      case Num(Float(f)) => SignedPlain(Saturated(f.Floor)); PlainReads(Signed(Saturated(f.Floor)), tail);
    }
  }

  /** Only `false` writes nothing; nothing written looks like a blank or a bracket. */
  lemma SimpleStart(v: Json)
    requires Scalar(v)
    ensures Simple(v) == "" <==> v == Bool(false)
    ensures Simple(v) != "" ==> Simple(v)[0] == '\'' || Plain(Simple(v)[0])
  {
    match v {
      case Num(Whole(n)) => SignedPlain(n);
      case Num(Float(f)) => SignedPlain(Saturated(f.Floor));
      case _ =>
    }
  }

  lemma Associative(a: string, b: string, c: string)
    ensures (a + b) + c == a + (b + c)
  {
  }

  lemma Skip(s: string, c: char, more: string)
    requires s == [c] + more
    ensures s != "" && s[0] == c && s[1..] == more
  {
  }

  lemma WordFirst(text: string, v: string, rest: string)
    requires text != "" && text[0] != ')' && text[0] != ' ' && ReadWord(text) == Some((v, rest)) && |rest| < |text|
    ensures ReadWords(text) == match ReadWords(rest) case None => None case Some((ws, rest')) => Some(([v] + ws, rest'))
  {
  }

  lemma BlankFirst(more: string)
    ensures ReadWords(" " + more) == ReadWords(more)
  {
    Skip(" " + more, ' ', more);
  }

  /** What is read when an element, possibly none, and a space precede the rest. */
  lemma ElementThenRest(v: Json, more: string)
    requires Scalar(v)
    ensures ReadWords(Simple(v) + (" " + more)) ==
            if v == Bool(false) then ReadWords(more)
            else match ReadWords(more)
              case None => None
              case Some((ws, rest)) => Some(([ScalarText(v, Cast)] + ws, rest))
  {
    SimpleReads(v, " " + more);
    SimpleStart(v);
    BlankFirst(more);
    if v == Bool(false) {
      assert Simple(v) + (" " + more) == " " + more;
    } else {
      Front(Simple(v), " " + more);
      WordFirst(Simple(v) + (" " + more), ScalarText(v, Cast), " " + more);
    }
  }

  lemma {:induction false} ArrayReads(values: seq<Json>, tail: string)
    requires forall v :: v in values ==> Scalar(v)
    ensures ReadWords(ArrayText(values) + (")" + tail)) == Some((Words(values, Cast), tail))
  {
    if values == [] {
      assert ArrayText(values) + (")" + tail) == ")" + tail;
      Skip(")" + tail, ')', tail);
    } else {
      var w, others := Simple(values[0]), ArrayText(values[1..]);
      ArrayReads(values[1..], tail);
      ElementThenRest(values[0], others + (")" + tail));
      Associative(w + " ", others, ")" + tail);
      Associative(w, " ", others + (")" + tail));
    }
  }

  /** What is read when a bracketed key, a value and a space precede the rest. */
  lemma PairThenRest(k: string, key: string, w: string, v: string, more: string)
    requires ReadWord(k + ("]=" + (w + (" " + more)))) == Some((key, "]=" + (w + (" " + more))))
    requires ReadWord(w + (" " + more)) == Some((v, " " + more))
    ensures ReadPairs("[" + (k + ("]=" + (w + (" " + more))))) ==
            if key == "" then None
            else match ReadPairs(more) case None => None case Some((ps, rest)) => Some(([(key, v)] + ps, rest))
  {
    var t1 := " " + more;
    var t2 := "]=" + (w + t1);
    Skip(t1, ' ', more);
    Skip("[" + (k + t2), '[', k + t2);
    assert t2[2..] == w + t1 && t2[..2] == "]=";
    assert ReadPairs(t1) == ReadPairs(more);
  }

  lemma PairText(k: string, w: string, others: string, tail: string)
    ensures "[" + k + "]=" + w + " " + others + tail == "[" + (k + ("]=" + (w + (" " + (others + tail)))))
  {
    Associative("[" + k + "]=" + w + " ", others, tail);
    Associative("[" + k + "]=" + w, " ", others + tail);
    Associative("[" + k + "]=", w, " " + (others + tail));
    Associative("[" + k, "]=", w + (" " + (others + tail)));
    Associative("[", k, "]=" + (w + (" " + (others + tail))));
  }

  lemma KeysNamedCons(entries: seq<(string, Json)>)
    requires entries != []
    ensures KeysNamed(Obj(entries)) <==> entries[0].0 != "" && KeysNamed(Obj(entries[1..]))
  {
    assert entries == [entries[0]] + entries[1..];
  }

  /** An object is read as its entries exactly if it has no empty key. */
  lemma {:induction false} ObjectReads(entries: seq<(string, Json)>, tail: string)
    requires forall e :: e in entries ==> Scalar(e.1)
    ensures ReadPairs(ObjectText(entries) + (")" + tail)) ==
            if KeysNamed(Obj(entries)) then Some((Pairs(entries, Cast), tail)) else None
  {
    if entries == [] {
      assert ObjectText(entries) + (")" + tail) == ")" + tail;
      Skip(")" + tail, ')', tail);
    } else {
      var (k, v) := entries[0];
      var others := ObjectText(entries[1..]);
      KeysNamedCons(entries);
      var more := others + (")" + tail);
      ObjectReads(entries[1..], tail);
      SimpleReads(v, " " + more);
      QuotedReads(k, "]=" + (Simple(v) + (" " + more)));
      PairThenRest(Quoted(k), k, Simple(v), ScalarText(v, Cast), more);
      PairText(Quoted(k), Simple(v), others, ")" + tail);
    }
  }

  lemma {:induction false} NameReads(k: string, tail: string)
    requires (forall i :: 0 <= i < |k| ==>
               Letter(k[i]) || Digit(k[i])) && tail != "" && !Letter(tail[0]) && !Digit(tail[0])
    ensures ReadName(k + tail) == (k, tail)
  {
    if k == "" {
      assert k + tail == tail;
    } else {
      NameReads(k[1..], tail);
      assert (k + tail)[1..] == k[1..] + tail;
      assert k == [k[0]] + k[1..];
    }
  }

  function FlagOf(v: Json): char {
    if v.Arr? then 'a' else if v.Obj? then 'A' else ' '
  }

  lemma FlagReads(k: string, v: Json, tail: string)
    requires ValidName(k)
    ensures ReadFlag(FlagText(v) + (k + tail)) == (FlagOf(v), k + tail)
  {
    var s := FlagText(v) + (k + tail);
    if v.Arr? || v.Obj? {
      assert s[..3] == FlagText(v) && s[3..] == k + tail;
      assert "-a "[1] == 'a' && "-A "[1] == 'A';
    } else {
      assert s == k + tail;
      assert s[0] == k[0] && "-a "[0] == '-' && "-A "[0] == '-';
      assert forall p :: StartsWith(s, p) && p != "" ==> s[0] == p[0];
    }
  }

  lemma Parenthesised(inner: string, tail: string)
    ensures "(" + inner + ")" + tail != "" && ("(" + inner + ")" + tail)[0] == '('
    ensures ("(" + inner + ")" + tail)[1..] == inner + (")" + tail)
  {
  }

  lemma ValueReads(v: Json, tail: string)
    requires Representable(v) && Stops(tail)
    ensures ReadValue(FlagOf(v), ValueText(v) + tail) ==
            if KeysNamed(v) then Some((ValueOf(v, Cast), tail)) else None
  {
    match v {
      case Arr(values) =>
        ArrayReads(values, tail);
        Parenthesised(ArrayText(values), tail);
      case Obj(entries) =>
        ObjectReads(entries, tail);
        Parenthesised(ObjectText(entries), tail);
      case _ => SimpleReads(v, tail);
    }
  }

  lemma Front(p: string, s: string)
    ensures StartsWith(p + s, p) && (p + s)[|p|..] == s && (p != "" ==> (p + s)[0] == p[0])
  {
  }

  lemma LineText(k: string, v: Json, tail: string)
    requires Representable(v)
    ensures Line(k, v) + tail == "declare " + (FlagText(v) + (k + ("=" + (ValueText(v) + ("\n" + tail)))))
  {
    var a, b, c := ValueText(v) + "\n", FlagText(v), ValueText(v);
    Associative(c, "\n", tail);
    Associative("=", a, tail);
    Associative(k, "=" + a, tail);
    Associative(b, k + ("=" + a), tail);
    Associative("declare ", b + (k + ("=" + a)), tail);
  }

  /** A declaration is read part by part. */
  lemma DeclarationReads(s: string, flag: char, s1: string, k: string, s2: string)
    requires StartsWith(s, "declare ") && ReadFlag(s[8..]) == (flag, s1) && ReadName(s1) == (k, s2)
    requires StartsWith(s2, "=") && ValidName(k)
    ensures ReadScript(s) ==
            match ReadValue(flag, s2[1..])
            case None => None
            case Some((v, s3)) =>
              if !StartsWith(s3, "\n") then None else
                match ReadScript(s3[1..]) case None => None case Some(rest) => Some([(k, v)] + rest)
  {
    assert s != "" by { assert "declare " != ""; }
  }

  /** Reading a declaration and what follows it. */
  lemma LineReads(k: string, v: Json, tail: string)
    requires ValidName(k) && Representable(v)
    ensures ReadScript(Line(k, v) + tail) ==
            if !KeysNamed(v) then None
            else match ReadScript(tail) case None => None case Some(rest) => Some([(k, ValueOf(v, Cast))] + rest)
  {
    var t3 := "\n" + tail;
    var t2 := "=" + (ValueText(v) + t3);
    var t1 := FlagText(v) + (k + t2);
    LineText(k, v, tail);
    Front("declare ", t1);
    FlagReads(k, v, t2);
    NameReads(k, t2);
    Front("=", ValueText(v) + t3);
    ValueReads(v, t3);
    Front("\n", tail);
    DeclarationReads(Line(k, v) + tail, FlagOf(v), k + t2, k, t2);
  }

  /** Reading the script gives exactly the valid-named, representable entries, in order,
      with their values, unless an object among them has an empty key. */
  lemma {:induction false} ScriptReads(attrs: seq<(string, Json)>)
    ensures ReadScript(Script(attrs)) == if AllNamed(attrs) then Some(Meaning(attrs, Cast)) else None
  {
    if attrs != [] {
      assert attrs == [attrs[0]] + attrs[1..];
      ScriptReads(attrs[1..]);
      if Declared(attrs[0]) {
        LineReads(attrs[0].0, attrs[0].1, Script(attrs[1..]));
      } else {
        assert "" + Script(attrs[1..]) == Script(attrs[1..]);
      }
    }
  }

  // ---------------------------------------------------------------------- the writer

  /** What the check of an array's elements finds first. */
  datatype Check = AllGood | SomeBad | Crash

  /** A nested array or object comes before any float that is not whole. */
  ghost predicate CrashesAt(values: seq<Json>, i: nat) {
    i < |values| && !Scalar(values[i]) && forall j :: 0 <= j < i ==> Scalar(values[j]) && Good(values[j])
  }

  method CheckArray(values: seq<Json>) returns (r: Check)
    ensures r == AllGood <==> Representable(Arr(values))
    ensures r == Crash <==> exists i :: CrashesAt(values, i)
  {
    for n := 0 to |values|
      invariant forall j :: 0 <= j < n ==> Scalar(values[j]) && Good(values[j])
    {
      if !Scalar(values[n]) {
        assert CrashesAt(values, n);
        assert values[n] in values;
        return Crash;
      }
      if !Good(values[n]) {
        assert values[n] in values;
        return SomeBad;
      }
    }
    return AllGood;
  }

  method CheckObject(entries: seq<(string, Json)>) returns (bad: bool)
    ensures bad <==> !Representable(Obj(entries))
  {
    for n := 0 to |entries|
      invariant forall j :: 0 <= j < n ==> Scalar(entries[j].1) && Good(entries[j].1)
    {
      if !Scalar(entries[n].1) || !Good(entries[n].1) {
        assert entries[n] in entries;
        return true;
      }
    }
    return false;
  }

  lemma {:induction false} ArraySnoc(values: seq<Json>, v: Json)
    requires (forall x :: x in values ==> Scalar(x)) && Scalar(v)
    ensures ArrayText(values + [v]) == ArrayText(values) + (Simple(v) + " ")
  {
    if values == [] {
      assert ArrayText([v]) == Simple(v) + " " + ArrayText([]);
    } else {
      assert (values + [v])[1..] == values[1..] + [v];
      ArraySnoc(values[1..], v);
      Associative(Simple(values[0]) + " ", ArrayText(values[1..]), Simple(v) + " ");
    }
  }

  lemma {:induction false} ObjectSnoc(entries: seq<(string, Json)>, k: string, v: Json)
    requires (forall e :: e in entries ==> Scalar(e.1)) && Scalar(v)
    ensures ObjectText(entries + [(k, v)]) == ObjectText(entries) + ("[" + Quoted(k) + "]=" + Simple(v) + " ")
  {
    if entries == [] {
      assert ObjectText([(k, v)]) == "[" + Quoted(k) + "]=" + Simple(v) + " " + ObjectText([]);
    } else {
      assert (entries + [(k, v)])[1..] == entries[1..] + [(k, v)];
      ObjectSnoc(entries[1..], k, v);
      var first := "[" + Quoted(entries[0].0) + "]=" + Simple(entries[0].1) + " ";
      Associative(first, ObjectText(entries[1..]), "[" + Quoted(k) + "]=" + Simple(v) + " ");
    }
  }

  method WriteArray(out: string, values: seq<Json>) returns (out': string)
    requires Representable(Arr(values))
    ensures out' == out + ArrayText(values)
  {
    out' := out;
    for n := 0 to |values|
      invariant out' == out + ArrayText(values[..n])
    {
      ArraySnoc(values[..n], values[n]);
      ExtendBy(values, n);
      Associative(out, ArrayText(values[..n]), Simple(values[n]) + " ");
      Associative(out', Simple(values[n]), " ");
      out' := WriteSimple(out', values[n]);
      out' := out' + " ";
    }
    assert values[..|values|] == values;
  }

  lemma PairWritten(out: string, k: string, w: string)
    ensures out + "[" + k + "]=" + w + " " == out + ("[" + k + "]=" + w + " ")
  {
    Associative(out, "[", k);
    Associative(out, "[" + k, "]=");
    Associative(out, "[" + k + "]=", w);
    Associative(out, "[" + k + "]=" + w, " ");
  }

  lemma ExtendBy<T>(s: seq<T>, n: nat)
    requires n < |s|
    ensures s[..n + 1] == s[..n] + [s[n]]
  {
  }

  lemma ObjectPrefix(entries: seq<(string, Json)>, n: nat)
    requires n < |entries| && Representable(Obj(entries))
    ensures ObjectText(entries[..n + 1]) ==
              ObjectText(entries[..n]) + ("[" + Quoted(entries[n].0) + "]=" + Simple(entries[n].1) + " ")
  {
    ObjectSnoc(entries[..n], entries[n].0, entries[n].1);
    assert (entries[n].0, entries[n].1) == entries[n];
    ExtendBy(entries, n);
  }

  method WriteObject(out: string, entries: seq<(string, Json)>) returns (out': string)
    requires Representable(Obj(entries))
    ensures out' == out + ObjectText(entries)
  {
    out' := out;
    for n := 0 to |entries|
      invariant out' == out + ObjectText(entries[..n])
    {
      var (k, v) := entries[n];
      ObjectPrefix(entries, n);
      var before := out';
      out' := WriteQuoted(out' + "[", k);
      out' := WriteSimple(out' + "]=", v);
      out' := out' + " ";
      PairWritten(before, Quoted(k), Simple(v));
      Associative(out, ObjectText(entries[..n]), "[" + Quoted(k) + "]=" + Simple(v) + " ");
    }
    assert entries[..|entries|] == entries;
  }

  /** The entry makes the writer panic. */
  ghost predicate Crashes(e: (string, Json)) {
    ValidName(e.0) && e.1.Arr? && exists i :: CrashesAt(e.1.values, i)
  }

  lemma Nested(a: string, b: string, c: string, d: string, e: string)
    ensures a + b + c + d + e == a + (b + (c + (d + e)))
  {
    Associative(a, b, c);
    Associative(a, b + c, d);
    Associative(b, c, d);
    Associative(a, b + (c + d), e);
    Associative(b, c + d, e);
    Associative(c, d, e);
  }

  lemma PlainLine(out: string, k: string, value: string)
    ensures out + "declare " + k + "=" + value + "\n" == out + ("declare " + ("" + (k + ("=" + (value + "\n")))))
  {
    Nested(out + "declare ", k, "=", value, "\n");
    Associative(out, "declare ", k + ("=" + (value + "\n")));
    assert "" + (k + ("=" + (value + "\n"))) == k + ("=" + (value + "\n"));
  }

  lemma ListLine(out: string, flag: string, k: string, body: string)
    ensures out + ("declare " + flag) + k + "=(" + body + ")" + "\n"
         == out + ("declare " + (flag + (k + ("=" + ("(" + body + ")" + "\n")))))
  {
    var value := "(" + body + ")";
    assert "=(" == "=" + "(";
    Associative(out + ("declare " + flag) + k, "=", "(");
    Associative(out + ("declare " + flag) + k + "=", "(", body);
    Associative(out + ("declare " + flag) + k + "=", "(" + body, ")");
    Nested(out + ("declare " + flag), k, "=", value, "\n");
    Associative(out, "declare " + flag, k + ("=" + (value + "\n")));
    Associative("declare ", flag, k + ("=" + (value + "\n")));
  }

  /** One iteration over the attributes; `None` is a panic. */
  method WriteEntry(out: string, e: (string, Json)) returns (r: Option<string>)
    ensures r.None? <==> Crashes(e)
    ensures r.Some? ==> r.value == out + EntryText(e)
  {
    var (k, v) := e;
    if !ValidName(k) { return Some(out); }
    var out' := out;
    match v {
      case Arr(values) =>
        var check := CheckArray(values);
        if check == Crash { return None; }
        if check == SomeBad { return Some(out); }
        assert "declare -a " == "declare " + "-a ";
        ListLine(out, "-a ", k, ArrayText(values));
        out' := WriteArray(out + "declare -a " + k + "=(", values);
        out' := out' + ")" + "\n";
      case Obj(entries) =>
        var bad := CheckObject(entries);
        if bad { return Some(out); }
        assert "declare -A " == "declare " + "-A ";
        ListLine(out, "-A ", k, ObjectText(entries));
        out' := WriteObject(out + "declare -A " + k + "=(", entries);
        out' := out' + ")" + "\n";
      case Num(_) =>
        if !Good(v) { return Some(out); }
        PlainLine(out, k, Simple(v));
        out' := WriteSimple(out + "declare " + k + "=", v);
        out' := out' + "\n";
      case _ =>
        PlainLine(out, k, Simple(v));
        out' := WriteSimple(out + "declare " + k + "=", v);
        out' := out' + "\n";
    }
    r := Some(out');
  }

  lemma {:induction false} ScriptSnoc(attrs: seq<(string, Json)>, e: (string, Json))
    ensures Script(attrs + [e]) == Script(attrs) + EntryText(e)
  {
    if attrs == [] {
      assert Script([e]) == EntryText(e) + Script([]);
    } else {
      assert (attrs + [e])[1..] == attrs[1..] + [e];
      ScriptSnoc(attrs[1..], e);
      Associative(EntryText(attrs[0]), Script(attrs[1..]), EntryText(e));
    }
  }

  lemma ScriptPrefix(attrs: seq<(string, Json)>, n: nat)
    requires n < |attrs|
    ensures Script(attrs[..n + 1]) == Script(attrs[..n]) + EntryText(attrs[n])
  {
    ScriptSnoc(attrs[..n], attrs[n]);
    ExtendBy(attrs, n);
  }

  /** Some entry among the first `n` makes the writer panic. */
  ghost predicate AnyCrash(attrs: seq<(string, Json)>, n: nat)
    requires n <= |attrs|
  {
    n > 0 && (AnyCrash(attrs, n - 1) || Crashes(attrs[n - 1]))
  }

  lemma {:induction false} AnyCrashMeans(attrs: seq<(string, Json)>, n: nat)
    requires n <= |attrs|
    ensures AnyCrash(attrs, n) <==> exists i :: 0 <= i < n && Crashes(attrs[i])
  {
    if n > 0 { AnyCrashMeans(attrs, n - 1); }
  }

  lemma {:induction false} CrashStays(attrs: seq<(string, Json)>, m: nat, n: nat)
    requires m <= n <= |attrs| && AnyCrash(attrs, m)
    ensures AnyCrash(attrs, n)
  {
    if m < n { CrashStays(attrs, m, n - 1); }
  }

  method WriteScript(attrs: seq<(string, Json)>) returns (r: Option<string>)
    ensures r.None? <==> AnyCrash(attrs, |attrs|)
    ensures r.Some? ==> r.value == Script(attrs)
  {
    var out := "";
    assert attrs[..0] == [];
    for n := 0 to |attrs|
      invariant out == Script(attrs[..n])
      invariant !AnyCrash(attrs, n)
    {
      ScriptPrefix(attrs, n);
      var next := WriteEntry(out, attrs[n]);
      if next.None? {
        CrashStays(attrs, n + 1, |attrs|);
        return None;
      }
      out := next.value;
    }
    assert attrs[..|attrs|] == attrs;
    r := Some(out);
  }

  // -------------------------------------------------------------------------- numerals

  function Parse(s: string): int
    requires forall i :: 0 <= i < |s| ==> Digit(s[i])
  {
    if s == "" then 0 else 10 * Parse(s[..|s| - 1]) + (s[|s| - 1] as int - '0' as int)
  }

  lemma {:induction false} DecimalParses(n: nat)
    ensures Parse(Decimal(n)) == n
  {
    var d := ['0' + (n % 10) as char];
    if n < 10 {
      assert d[..0] == "";
    } else {
      DecimalParses(n / 10);
      assert (Decimal(n / 10) + d)[..|Decimal(n / 10)|] == Decimal(n / 10);
    }
  }

  lemma SignOf(n: int)
    ensures Signed(n) != "" && (Signed(n)[0] == '-' <==> n < 0)
  {
    if n >= 0 { assert Digit(Decimal(n)[0]); }
  }

  /** Different integers have different texts. */
  lemma SignedInjective(m: int, n: int)
    requires Signed(m) == Signed(n)
    ensures m == n
  {
    SignOf(m);
    SignOf(n);
    if m < 0 {
      assert Signed(m)[1..] == Decimal(-m) && Signed(n)[1..] == Decimal(-n);
      DecimalParses(-m);
      DecimalParses(-n);
    } else {
      DecimalParses(m);
      DecimalParses(n);
    }
  }

  predicate AllDigits(s: string) {
    forall i :: 0 <= i < |s| ==> Digit(s[i])
  }

  /** Digits without a zero in front that is not the whole numeral. */
  predicate Canonical(s: string) {
    s != "" && AllDigits(s) && (|s| > 1 ==> s[0] != '0')
  }

  /** The text is the decimal numeral of the integer: a sign if it is negative, and canonical digits. */
  predicate Numeral(s: string, n: int) {
    if n >= 0 then Canonical(s) && Parse(s) == n
    else s != "" && s[0] == '-' && Canonical(s[1..]) && Parse(s[1..]) == -n
  }

  lemma {:induction false} DecimalCanonical(n: nat)
    ensures Canonical(Decimal(n)) && (Decimal(n)[0] == '0' <==> n == 0)
  {
    if n >= 10 { DecimalCanonical(n / 10); }
  }

  lemma {:induction false} ParseBounds(s: string)
    requires AllDigits(s)
    ensures Parse(s) >= 0 && (Canonical(s) && |s| > 1 ==> Parse(s) >= 10)
    decreases |s|
  {
    if s != "" {
      var init := s[..|s| - 1];
      assert forall i :: 0 <= i < |init| ==> init[i] == s[i];
      ParseBounds(init);
      if |s| == 2 { assert Parse(init) == init[0] as int - '0' as int by { assert init[..0] == ""; } }
    }
  }

  /** There is only one canonical numeral. */
  lemma {:induction false} CanonicalUnique(s: string, n: nat)
    requires Canonical(s) && Parse(s) == n
    ensures s == Decimal(n)
    decreases |s|
  {
    var init, last := s[..|s| - 1], s[|s| - 1];
    assert s == init + [last] && forall i :: 0 <= i < |init| ==> init[i] == s[i];
    ParseBounds(s);
    ParseBounds(init);
    var d := last as int - '0' as int;
    assert 0 <= d < 10 && n == 10 * Parse(init) + d;
    assert n / 10 == Parse(init) && n % 10 == d;
    if |s| > 1 {
      CanonicalUnique(init, n / 10);
    }
  }

  /** The text written for an integer is its numeral, and nothing else is. */
  lemma SignedIs(s: string, n: int)
    ensures Numeral(s, n) <==> s == Signed(n)
  {
    var m := if n < 0 then -n else n;
    DecimalCanonical(m);
    DecimalParses(m);
    if n < 0 {
      assert Signed(n)[1..] == Decimal(m);
      if Numeral(s, n) {
        CanonicalUnique(s[1..], m);
        assert s == "-" + s[1..];
      }
    } else if Numeral(s, n) {
      CanonicalUnique(s, m);
    }
  }

  // ---------------------------------------------------- characters, names and whole numbers

  /** A name is valid iff it is not empty, has only ASCII letters, digits and underscores, and
      does not begin with a digit. */
  lemma ValidNameIs(s: string)
    ensures ValidName(s) <==>
              && s != "" && !(48 <= s[0] as int <= 57)
              && forall i :: 0 <= i < |s| ==>
                   var x := s[i] as int; 48 <= x <= 57 || 65 <= x <= 90 || 97 <= x <= 122 || x == 95
  {
    if ValidName(s) { assert forall i :: 0 <= i < |s| ==> Letter(s[i]) || Digit(s[i]); }
  }

  predicate IsWhole(f: real, n: int) { n as real == f }

  /** A scalar is good unless it is a number that is not an integer. */
  lemma GoodIs(v: Json)
    requires Scalar(v)
    ensures Good(v) <==> (v.Num? && v.number.Float? ==> exists n :: IsWhole(v.number.f, n))
  {
    if v.Num? && v.number.Float? {
      assert Good(v) ==> IsWhole(v.number.f, v.number.f.Floor);
      assert forall n :: IsWhole(v.number.f, n) ==> n == v.number.f.Floor;
    }
  }

  /** The cast gives the nearest 64-bit integer. */
  lemma SaturatedIs(n: int, m: int)
    requires -TWO_TO_63 <= m < TWO_TO_63
    ensures -TWO_TO_63 <= Saturated(n) < TWO_TO_63
    ensures if n <= m then n <= Saturated(n) <= m || Saturated(n) == -TWO_TO_63 else m <= Saturated(n) <= n
  {
  }

  // --------------------------------------------------------------------- what values mean

  /** The text a scalar stands for. */
  ghost predicate ScalarMeans(v: Json, text: string)
    requires Scalar(v)
  {
    match v
    case Null => text == ""
    case Bool(b) => text == if b then "1" else ""
    case Num(Whole(n)) => Numeral(text, n)
    case Num(Float(f)) => exists n :: IsWhole(f, n) && Numeral(text, n)
    case Str(s) => text == s
  }

  /** The words are those of the values, in order; `false` has none. */
  ghost predicate WordsMean(values: seq<Json>, words: seq<string>)
    requires forall v :: v in values ==> Scalar(v)
  {
    if values == [] then words == []
    else if values[0] == Bool(false) then WordsMean(values[1..], words)
    else words != [] && ScalarMeans(values[0], words[0]) && WordsMean(values[1..], words[1..])
  }

  ghost predicate PairsMean(entries: seq<(string, Json)>, pairs: seq<(string, string)>)
    requires forall e :: e in entries ==> Scalar(e.1)
  {
    if entries == [] then pairs == []
    else && pairs != [] && pairs[0].0 == entries[0].0 && ScalarMeans(entries[0].1, pairs[0].1)
         && PairsMean(entries[1..], pairs[1..])
  }

  ghost predicate ValueMeans(v: Json, x: Value)
    requires Representable(v)
  {
    match v
    case Arr(values) => x.Indexed? && WordsMean(values, x.words)
    case Obj(entries) => x.Keyed? && PairsMean(entries, x.pairs)
    case _ => x.Text? && ScalarMeans(v, x.text)
  }

  /** The declarations are those of the declared entries, in order, with their values. */
  ghost predicate ScriptMeans(attrs: seq<(string, Json)>, decls: seq<(string, Value)>) {
    if attrs == [] then decls == []
    else if !Declared(attrs[0]) then ScriptMeans(attrs[1..], decls)
    else && decls != [] && decls[0].0 == attrs[0].0 && ValueMeans(attrs[0].1, decls[0].1)
         && ScriptMeans(attrs[1..], decls[1..])
  }

  lemma ScalarIs(v: Json, text: string)
    requires Scalar(v) && Good(v)
    ensures ScalarMeans(v, text) <==> text == ScalarText(v, Exact)
  {
    if v.Num? && v.number.Whole? { SignedIs(text, v.number.n); }
    if v.Num? && v.number.Float? {
      var n := v.number.f.Floor;
      SignedIs(text, n);
      assert IsWhole(v.number.f, n) && forall m :: IsWhole(v.number.f, m) ==> m == n;
    }
  }

  lemma {:induction false} WordsAre(values: seq<Json>, words: seq<string>)
    requires Representable(Arr(values))
    ensures WordsMean(values, words) <==> words == Words(values, Exact)
    decreases |values|
  {
    if values != [] {
      assert Representable(Arr(values[1..]));
      if values[0] == Bool(false) {
        WordsAre(values[1..], words);
      } else if words != [] {
        ScalarIs(values[0], words[0]);
        WordsAre(values[1..], words[1..]);
        assert words == [words[0]] + words[1..];
        ConsSame(words[0], words[1..], ScalarText(values[0], Exact), Words(values[1..], Exact));
      }
    }
  }

  lemma {:induction false} PairsAre(entries: seq<(string, Json)>, pairs: seq<(string, string)>)
    requires Representable(Obj(entries))
    ensures PairsMean(entries, pairs) <==> pairs == Pairs(entries, Exact)
    decreases |entries|
  {
    if entries != [] {
      assert Representable(Obj(entries[1..]));
      if pairs != [] {
        var (k, v) := entries[0];
        ScalarIs(v, pairs[0].1);
        PairsAre(entries[1..], pairs[1..]);
        assert pairs == [pairs[0]] + pairs[1..];
        ConsSame(pairs[0], pairs[1..], (k, ScalarText(v, Exact)), Pairs(entries[1..], Exact));
      }
    }
  }

  lemma ValueIs(v: Json, x: Value)
    requires Representable(v)
    ensures ValueMeans(v, x) <==> x == ValueOf(v, Exact)
  {
    match v {
      case Arr(values) => if x.Indexed? { WordsAre(values, x.words); }
      case Obj(entries) => if x.Keyed? { PairsAre(entries, x.pairs); }
      case _ => if x.Text? { ScalarIs(v, x.text); }
    }
  }

  /** Declarations with that meaning are unique. */
  lemma {:induction false} ScriptIs(attrs: seq<(string, Json)>, decls: seq<(string, Value)>)
    ensures ScriptMeans(attrs, decls) <==> decls == Meaning(attrs, Exact)
    decreases |attrs|
  {
    if attrs != [] {
      if !Declared(attrs[0]) {
        ScriptIs(attrs[1..], decls);
      } else if decls != [] {
        var (k, v) := attrs[0];
        ValueIs(v, decls[0].1);
        ScriptIs(attrs[1..], decls[1..]);
        assert decls == [decls[0]] + decls[1..];
        ConsSame(decls[0], decls[1..], (k, ValueOf(v, Exact)), Meaning(attrs[1..], Exact));
      }
    }
  }

  // ---------------------------------------------------------------- when values are kept

  /** Whole floats fit a signed 64-bit integer. */
  predicate Fits(v: Json)
    requires Scalar(v)
  {
    v.Num? && v.number.Float? ==> -(TWO_TO_63 as real) <= v.number.f < TWO_TO_63 as real
  }

  predicate AllFit(v: Json)
    requires Representable(v)
  {
    match v
    case Arr(values) => forall x :: x in values ==> Fits(x)
    case Obj(entries) => forall e :: e in entries ==> Fits(e.1)
    case _ => Fits(v)
  }

  /** The cast keeps a number exactly if it fits. */
  lemma ScalarKept(v: Json)
    requires Scalar(v) && Good(v)
    ensures ScalarText(v, Cast) == ScalarText(v, Exact) <==> Fits(v)
  {
    if v.Num? && v.number.Float? {
      var n := v.number.f.Floor;
      if Signed(Saturated(n)) == Signed(n) { SignedInjective(Saturated(n), n); }
    }
  }

  lemma {:induction false} WordsKept(values: seq<Json>)
    requires Representable(Arr(values))
    ensures |Words(values, Cast)| == |Words(values, Exact)|
    ensures Words(values, Cast) == Words(values, Exact) <==> AllFit(Arr(values))
  {
    if values != [] {
      var v, rest := values[0], values[1..];
      assert values == [v] + rest;
      assert Representable(Arr(rest));
      WordsKept(rest);
      ScalarKept(v);
      assert AllFit(Arr(values)) <==> Fits(v) && AllFit(Arr(rest));
      ConsSame(ScalarText(v, Cast), Words(rest, Cast), ScalarText(v, Exact), Words(rest, Exact));
    }
  }

  lemma {:induction false} PairsKept(entries: seq<(string, Json)>)
    requires Representable(Obj(entries))
    ensures Pairs(entries, Cast) == Pairs(entries, Exact) <==> AllFit(Obj(entries))
  {
    if entries != [] {
      var (k, v) := entries[0];
      var rest := entries[1..];
      assert entries == [entries[0]] + rest;
      assert Representable(Obj(rest));
      PairsKept(rest);
      ScalarKept(v);
      assert AllFit(Obj(entries)) <==> Fits(v) && AllFit(Obj(rest));
      ConsSame((k, ScalarText(v, Cast)), Pairs(rest, Cast), (k, ScalarText(v, Exact)), Pairs(rest, Exact));
    }
  }

  lemma ConsSame<T>(x: T, xs: seq<T>, y: T, ys: seq<T>)
    ensures [x] + xs == [y] + ys <==> x == y && xs == ys
  {
    var a, b := [x] + xs, [y] + ys;
    if a == b {
      assert a[0] == x && b[0] == y && a[1..] == xs && b[1..] == ys;
    }
  }

  lemma ValueKept(v: Json)
    requires Representable(v)
    ensures ValueOf(v, Cast) == ValueOf(v, Exact) <==> AllFit(v)
  {
    match v {
      case Arr(values) => WordsKept(values);
      case Obj(entries) => PairsKept(entries);
      case _ => ScalarKept(v);
    }
  }

  /** All values of declared entries are declared as they are exactly if all their whole
      floats fit a signed 64-bit integer. */
  lemma {:induction false} ValuesKept(attrs: seq<(string, Json)>)
    ensures Meaning(attrs, Cast) == Meaning(attrs, Exact) <==>
              forall e :: e in attrs && Declared(e) ==> AllFit(e.1)
  {
    if attrs != [] {
      var e, rest := attrs[0], attrs[1..];
      assert attrs == [e] + rest;
      ValuesKept(rest);
      if Declared(e) {
        ValueKept(e.1);
        ConsSame((e.0, ValueOf(e.1, Cast)), Meaning(rest, Cast), (e.0, ValueOf(e.1, Exact)), Meaning(rest, Exact));
      }
    }
  }

  /** `write_attrs_sh_file`: it panics iff some valid-named array has a nested element that
      no bad number precedes. Otherwise what it writes is refused iff a declared object has an
      empty key, and else read back as the valid-named, representable entries, with their
      values iff all their whole floats fit. */
  method WriteAttrs(attrs: seq<(string, Json)>) returns (r: Option<string>)
    ensures r.None? <==> exists i :: 0 <= i < |attrs| && Crashes(attrs[i])
    ensures r.Some? ==> r.value == Script(attrs)
    ensures r.Some? ==> ReadScript(r.value) == if AllNamed(attrs) then Some(Meaning(attrs, Cast)) else None
    ensures r.Some? ==> ((exists decls :: ReadScript(r.value) == Some(decls) && ScriptMeans(attrs, decls)) <==>
                           AllNamed(attrs) && forall e :: e in attrs && Declared(e) ==> AllFit(e.1))
  {
    ScriptReads(attrs);
    ScriptIs(attrs, Meaning(attrs, Cast));
    ValuesKept(attrs);
    AnyCrashMeans(attrs, |attrs|);
    r := WriteScript(attrs);
  }

  /** What a declaration looks like, to the letter. */
  lemma LineLayout(k: string, v: Json)
    requires Representable(v)
    ensures v.Arr? ==> Line(k, v) == "" + "declare -a " + k + "=(" + ArrayText(v.values) + ")" + "\n"
    ensures v.Obj? ==> Line(k, v) == "" + "declare -A " + k + "=(" + ObjectText(v.entries) + ")" + "\n"
    ensures Scalar(v) ==> Line(k, v) == "" + "declare " + k + "=" + Simple(v) + "\n"
  {
    assert forall s: string :: "" + s == s;
    if v.Arr? {
      assert "declare -a " == "declare " + "-a ";
      ListLine("", "-a ", k, ArrayText(v.values));
    } else if v.Obj? {
      assert "declare -A " == "declare " + "-A ";
      ListLine("", "-A ", k, ObjectText(v.entries));
    } else {
      PlainLine("", k, Simple(v));
    }
  }

  /** Different whole floats beyond the range are declared as the same number, neither of them. */
  lemma LargeFloatsLost()
    ensures var a, b := Num(Float(10000000000000000000.0)), Num(Float(20000000000000000000.0));
            && Good(a) && Good(b) && !Fits(a) && !Fits(b)
            && ScalarText(a, Exact) != ScalarText(b, Exact)
            && ScalarText(a, Cast) == ScalarText(b, Cast) == Signed(9223372036854775807)
            && ScalarText(a, Cast) != ScalarText(a, Exact)
  {
    var a, b := Num(Float(10000000000000000000.0)), Num(Float(20000000000000000000.0));
    assert a.number.f.Floor == 10000000000000000000 && b.number.f.Floor == 20000000000000000000;
    ScalarKept(a);
    if ScalarText(a, Exact) == ScalarText(b, Exact) {
      SignedInjective(10000000000000000000, 20000000000000000000);
    }
  }

  /** An object with an empty key is declared in a way the shell refuses. */
  method EmptyKeyRefused() returns (r: Option<string>)
    ensures r.Some? && ReadScript(r.value) == None
  {
    var attrs := [("k", Obj([("", Str("v"))]))];
    assert attrs[0].1.entries[0].0 == "";
    assert Declared(attrs[0]) && !KeysNamed(attrs[0].1);
    r := WriteAttrs(attrs);
  }

  /** An array in an array makes the writer panic. */
  method NestedArrayPanics() returns (r: Option<string>)
    ensures r == None
  {
    assert CrashesAt([Arr([])], 0);
    assert Crashes(("k", Arr([Arr([])])));
    var attrs := [("k", Arr([Arr([])]))];
    assert Crashes(attrs[0]);
    r := WriteAttrs(attrs);
  }
}
