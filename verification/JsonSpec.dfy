/** datastructs/json.c as functions: what the printer writes, what the parser reads, and what a value
    means as a document. */
module JsonSpec {

  const INT_MAX := 0x7FFF_FFFF

  // ---------- documents and printing ----------

  /** What the parser returns: nullref, a number, a string, an array, or a hash as the map it stands for. */
  datatype Doc = Null | Num(i: int) | Str(s: string) | Arr(items: seq<Doc>) | Obj(fields: map<string, Doc>)

  /** What the printer is given; a hash shows its entries in bucket and chain order, and its kvp_count, which is
      more where the table has lost entries. */
  datatype Value =
    | IntVal(i: int) | StrVal(s: string) | ArrVal(items: seq<Value>)
    | HashVal(members: seq<Member>, count: int) | GameVal
  datatype Member = Member(key: MemberKey, val: Value)
  datatype MemberKey = StrKey(s: string) | IntKey(i: int) | OtherKey

  function Digits(n: nat): (s: string)
    ensures s != [] && AllDigits(s)
  {
    if n < 10 then [Digit(n)] else Digits(n / 10) + [Digit(n % 10)]
  }

  function Digit(n: nat): char
    requires n < 10
  {
    "0123456789"[n]
  }

  function DigitValue(c: char): int {
    c as int - '0' as int
  }

  function Itoa(i: int): string {
    if i < 0 then "-" + Digits(-i) else Digits(i)
  }

  function Print(v: Value): string {
    match v
    case IntVal(i) => Itoa(i)
    case StrVal(s) => "\"" + s + "\""
    case ArrVal(items) => "[" + PrintItems(items) + "]"
    case HashVal(members, count) => "{" + PrintMembers(members, count) + "}"
    case GameVal => ""
  }

  function PrintItems(items: seq<Value>): string {
    if items == [] then "" else Print(items[0]) + PrintMoreItems(items[1..])
  }

  function PrintMoreItems(items: seq<Value>): string {
    if items == [] then "" else "," + Print(items[0]) + PrintMoreItems(items[1..])
  }

  /** A key that is neither a string nor an integer prints nothing, not even its value. */
  function PrintMember(m: Member): string {
    match m.key
    case StrKey(s) => "\"" + s + "\"" + ":" + Print(m.val)
    case IntKey(i) => "\"" + Itoa(i) + "\"" + ":" + Print(m.val)
    case OtherKey => ""
  }

  /** A comma follows every entry but the one that `count` says is the last. */
  function PrintMembers(members: seq<Member>, count: int): string {
    if members == [] then ""
    else PrintMember(members[0]) + (if count == 1 then "" else ",") + PrintMembers(members[1..], count - 1)
  }

  /** The values the printer and the parser agree on. */
  predicate Plain(v: Value) {
    match v
    case IntVal(i) => 0 <= i <= INT_MAX
    case StrVal(s) => '"' !in s
    case ArrVal(items) => forall k :: 0 <= k < |items| ==> Plain(items[k])
    case HashVal(members, count) => |members| <= count && forall k :: 0 <= k < |members| ==> PlainMember(members[k])
    case GameVal => false
  }

  predicate PlainMember(m: Member) {
    m.key.StrKey? && '"' !in m.key.s && Plain(m.val)
  }

  function Meaning(v: Value): Doc
    requires Plain(v)
  {
    match v
    case IntVal(i) => Num(i)
    case StrVal(s) => Str(s)
    case ArrVal(items) => Arr(seq(|items|, k requires 0 <= k < |items| => Meaning(items[k])))
    case HashVal(members, _) => Obj(Fields(members))
  }

  /** The map of the members; a later member overrides an earlier one with the same key. */
  function Fields(members: seq<Member>): map<string, Doc>
    requires forall k :: 0 <= k < |members| ==> PlainMember(members[k])
  {
    if members == [] then map[]
    else
      assert PlainMember(members[0]);
      map[members[0].key.s := MemberMeaning(members[0])] + Fields(members[1..])
  }

  function MemberMeaning(m: Member): Doc
    requires PlainMember(m)
  {
    Meaning(m.val)
  }

  ghost predicate DistinctKeys(members: seq<Member>) {
    forall j, k :: 0 <= j < k < |members| ==> members[j].key != members[k].key
  }

  /** With distinct keys the map is the same in any order of the members. */
  lemma {:induction false} FieldsAt(members: seq<Member>, key: string)
    requires forall k :: 0 <= k < |members| ==> PlainMember(members[k])
    requires DistinctKeys(members)
    ensures key in Fields(members) <==> exists k :: 0 <= k < |members| && members[k].key == StrKey(key)
    ensures forall k :: 0 <= k < |members| && members[k].key == StrKey(key) ==>
              key in Fields(members) && Fields(members)[key] == Meaning(members[k].val)
  {
    if members != [] {
      var rest := members[1..];
      assert forall k :: 0 <= k < |rest| ==> rest[k] == members[k + 1];
      FieldsAt(rest, key);
      if k :| 0 <= k < |rest| && rest[k].key == StrKey(key) {
        assert members[k + 1].key == StrKey(key);
      }
      forall k | 0 <= k < |members| && members[k].key == StrKey(key)
        ensures key in Fields(members) && Fields(members)[key] == Meaning(members[k].val)
      {
        if k > 0 { assert rest[k - 1].key == StrKey(key); }
      }
    }
  }

  lemma FieldsIgnoreOrder(a: seq<Member>, b: seq<Member>)
    requires (forall k :: 0 <= k < |a| ==> PlainMember(a[k])) && (forall k :: 0 <= k < |b| ==> PlainMember(b[k]))
    requires DistinctKeys(a) && DistinctKeys(b) && (forall m :: m in a <==> m in b)
    ensures Fields(a) == Fields(b)
  {
    forall key ensures key in Fields(a) <==> key in Fields(b)
      ensures key in Fields(a) && key in Fields(b) ==> Fields(a)[key] == Fields(b)[key]
    {
      FieldsAt(a, key);
      FieldsAt(b, key);
      if k :| 0 <= k < |a| && a[k].key == StrKey(key) {
        assert a[k] in a && a[k] in b;
        var j :| 0 <= j < |b| && b[j] == a[k];
        assert b[j].key == StrKey(key);
      }
      if k :| 0 <= k < |b| && b[k].key == StrKey(key) {
        assert b[k] in b && b[k] in a;
        var j :| 0 <= j < |a| && a[j] == b[k];
        assert a[j].key == StrKey(key);
      }
    }
  }

  // ---------- parsing ----------

  predicate IsSpace(c: char) {
    c == ' ' || '\t' <= c <= '\r'
  }

  predicate IsDigit(c: char) {
    '0' <= c <= '9'
  }

  predicate AllDigits(s: string) {
    forall k :: 0 <= k < |s| ==> IsDigit(s[k])
  }

  function Decimal(s: string): int {
    if s == [] then 0 else Decimal(s[..|s| - 1]) * 10 + DigitValue(s[|s| - 1])
  }

  /** The digits that a text begins with. */
  function Leading(s: string): (r: string)
    ensures AllDigits(r) && r <= s
    ensures |r| < |s| ==> !IsDigit(s[|r|])
  {
    if s == [] || !IsDigit(s[0]) then [] else [s[0]] + Leading(s[1..])
  }

  /** The C library's atoi: the decimal value of the digits that the text begins with, where it fits an
      int; what it gives otherwise is not defined. */
  type Atoi = string -> int
  ghost predicate IsAtoi(atoi: Atoi) {
    forall s :: Leading(s) != [] && Decimal(Leading(s)) <= INT_MAX ==> atoi(s) == Decimal(Leading(s))
  }

  /** What the stack holds from the start of the number buffer on: its eleven characters, and whatever
      comes after them. */
  type Stack = s: string | |s| >= 11 witness "\0\0\0\0\0\0\0\0\0\0\0"

  /** What a parse depends on besides the text: atoi, and for the number at each offset what the stack
      holds when its buffer comes to life.  Every number is read once, so this covers a buffer with the
      remains of the last number as well as any other. */
  datatype Host = Host(atoi: Atoi, stack: nat -> Stack)

  /** strncpy of all characters of s and nothing else: no terminator is written. */
  function Copied(stack: string, s: string): string {
    if |s| <= |stack| then s + stack[|s|..] else s
  }

  /** What is read from where the text starts, and the limit that the parser is given.  It looks at the
      characters up to offset limit + 1. */
  datatype Text = Text(chars: string, limit: int) {
    ghost predicate Valid() {
      -1 <= limit && limit + 2 <= |chars|
    }
  }

  /** A result and the offset after it. */
  datatype Parsed = Parsed(doc: Doc, next: int)

  /** skip_ws: the offset where it stops, beyond the limit if it fails. */
  function Skip(t: Text, o: nat): (r: nat)
    requires t.Valid() && o <= t.limit + 2
    ensures o <= r <= t.limit + 2
    ensures r <= t.limit ==> !IsSpace(t.chars[r])
    decreases t.limit + 2 - o
  {
    if o > t.limit then o
    else if IsSpace(t.chars[o]) then Skip(t, o + 1)
    else o
  }

  /** The offset of the closing quote, or where the bounds check stops the search. */
  function CloseQuote(t: Text, o: nat): (r: (bool, nat))
    requires t.Valid() && o <= t.limit + 1
    ensures o <= r.1 <= if r.0 then t.limit + 1 else t.limit + 2
    ensures r.0 ==> t.chars[r.1] == '"'
    ensures !r.0 ==> t.limit < r.1
    ensures r.0 ==> '"' !in t.chars[o..r.1]
    decreases t.limit + 1 - o
  {
    if t.chars[o] == '"' then (true, o)
    else if o + 1 > t.limit then (false, o + 1)
    else CloseQuote(t, o + 1)
  }

  /** The offset after a run of digits, beyond the limit if the bounds check stops it. */
  function DigitsEnd(t: Text, o: nat): (r: nat)
    requires t.Valid() && o <= t.limit + 1
    ensures o <= r <= t.limit + 1
    ensures AllDigits(t.chars[o..r])
    ensures r <= t.limit ==> !IsDigit(t.chars[r])
    decreases t.limit + 1 - o
  {
    if o > t.limit || !IsDigit(t.chars[o]) then o else DigitsEnd(t, o + 1)
  }

  function ParseNumber(t: Text, host: Host, o: nat): (r: Parsed)
    requires t.Valid() && o <= t.limit && IsDigit(t.chars[o])
    ensures o < r.next <= t.limit + 1
  {
    var e := DigitsEnd(t, o);
    if e > t.limit || e - o > 11 then Parsed(Null, e)
    else Parsed(Num(host.atoi(Copied(host.stack(o), t.chars[o..e]))), e)
  }

  /** One of the words true and false, with a bounds check after every letter but the last. */
  function ParseWord(t: Text, o: nat, word: string, doc: Doc): (r: Parsed)
    requires t.Valid() && o <= t.limit && word != []
    ensures o <= r.next <= t.limit + 1
    decreases |word|
  {
    if t.chars[o] != word[0] then Parsed(Null, o)
    else if |word| == 1 then Parsed(doc, o + 1)
    else if o + 1 > t.limit then Parsed(Null, o + 1)
    else ParseWord(t, o + 1, word[1..], doc)
  }

  /** json_to_object_internal from offset o: the result and the offset it stops at. */
  function Parse(t: Text, host: Host, o: nat): (r: Parsed)
    requires t.Valid() && o <= t.limit + 2
    ensures o <= r.next <= t.limit + 2
    ensures r.doc != Null ==> o < r.next
    decreases t.limit + 2 - o, 0
  {
    var p := Skip(t, o);
    if p > t.limit then Parsed(Null, p)
    else if t.chars[p] == '[' then
      if p + 1 > t.limit then Parsed(Null, p + 1) else ParseItems(t, host, p + 1, [])
    else if t.chars[p] == '{' then
      if p + 1 > t.limit then Parsed(Null, p + 1) else ParseMembers(t, host, p + 1, map[])
    else if t.chars[p] == '"' then
      var q := CloseQuote(t, p + 1);
      if q.0 then Parsed(Str(t.chars[p + 1..q.1]), q.1 + 1) else Parsed(Null, q.1)
    else if IsDigit(t.chars[p]) then ParseNumber(t, host, p)
    else if t.chars[p] == 't' then ParseWord(t, p, "true", Num(1))
    else if t.chars[p] == 'f' then ParseWord(t, p, "false", Num(0))
    else Parsed(Null, p)
  }

  /** The loop of an array: a failed item counts as null, and a comma may be the last thing. */
  function ParseItems(t: Text, host: Host, o: nat, items: seq<Doc>): (r: Parsed)
    requires t.Valid() && o <= t.limit + 1
    ensures o < r.next <= t.limit + 2 || (r.doc == Null && o <= r.next <= t.limit + 2)
    decreases t.limit + 2 - o, 1
  {
    if t.chars[o] == ']' then Parsed(Arr(items), o + 1)
    else
      var item := Parse(t, host, o);
      var p := Skip(t, item.next);
      if p > t.limit then Parsed(Null, p)
      else if t.chars[p] == ',' then ParseItems(t, host, p + 1, items + [item.doc])
      else if t.chars[p] == ']' then Parsed(Arr(items + [item.doc]), p + 1)
      else Parsed(Null, p)
  }

  /** A key, a colon and a value, or where their parse fails. */
  datatype Pair = Pair(key: string, val: Doc, next: int) | NoPair(next: int)

  function ParsePair(t: Text, host: Host, o: nat): (r: Pair)
    requires t.Valid() && o <= t.limit + 1
    ensures o <= r.next <= t.limit + 2 && (r.Pair? ==> o < r.next)
    decreases t.limit + 2 - o, 1
  {
    var key := Parse(t, host, o);
    if !key.doc.Str? then NoPair(key.next)
    else
      var p := Skip(t, key.next);
      if p > t.limit || t.chars[p] != ':' then NoPair(p)
      else
        var val := Parse(t, host, p + 1);
        Pair(key.doc.s, val.doc, val.next)
  }

  function ParseMembers(t: Text, host: Host, o: nat, fields: map<string, Doc>): (r: Parsed)
    requires t.Valid() && o <= t.limit + 1
    ensures o < r.next <= t.limit + 2 || (r.doc == Null && o <= r.next <= t.limit + 2)
    decreases t.limit + 2 - o, 2
  {
    if t.chars[o] == '}' then Parsed(Obj(fields), o + 1)
    else
      var m := ParsePair(t, host, o);
      if m.NoPair? then Parsed(Null, m.next)
      else
        var q := Skip(t, m.next);
        if q > t.limit then Parsed(Null, q)
        else if t.chars[q] == ',' then ParseMembers(t, host, q + 1, fields[m.key := m.val])
        else if t.chars[q] == '}' then Parsed(Obj(fields[m.key := m.val]), q + 1)
        else Parsed(Null, q)
  }

  // ---------- numbers that come back ----------

  /** The digits that atoi finds behind the copied ones. */
  function Stale(host: Host, o: nat, length: nat): string {
    if length <= |host.stack(o)| then Leading(host.stack(o)[length..]) else []
  }

  predicate Zeros(s: string) {
    forall k :: 0 <= k < |s| ==> s[k] == '0'
  }

  /** A number and the offset where it is printed. */
  datatype Number = Number(offset: nat, n: int)

  /** The numbers of a value that is printed at offset o. */
  function Numbers(o: nat, v: Value): set<Number>
    decreases v
  {
    match v
    case IntVal(i) => {Number(o, i)}
    case ArrVal(items) => ItemNumbers(o + 1, items)
    case HashVal(members, _) => MemberNumbers(o + 1, members)
    case _ => {}
  }

  function ItemNumbers(o: nat, items: seq<Value>): set<Number>
    decreases items
  {
    if items == [] then {} else Numbers(o, items[0]) + ItemNumbers(AfterItem(o, items[0]), items[1..])
  }

  function MemberNumbers(o: nat, members: seq<Member>): set<Number>
    decreases members
  {
    if members == [] then {}
    else ValueNumbers(o, members[0]) + MemberNumbers(AfterMember(o, members[0]), members[1..])
  }

  function ValueNumbers(o: nat, m: Member): set<Number>
    decreases m
  {
    Numbers(ValueOffset(o, m), m.val)
  }

  /** Where the item behind one that is printed at offset o is printed. */
  function AfterItem(o: nat, v: Value): nat {
    o + |Print(v)| + 1
  }

  /** Where the value of a member with a string key is printed, and where the next member is. */
  function ValueOffset(o: nat, m: Member): nat {
    if m.key.StrKey? then o + |m.key.s| + 3 else o
  }

  function AfterMember(o: nat, m: Member): nat {
    ValueOffset(o, m) + |Print(m.val)| + 1
  }

  /** Behind the digits of each number the stack holds no digit, or, behind a zero, only zeros. */
  ghost predicate Clean(host: Host, numbers: set<Number>) {
    forall x :: x in numbers ==> CleanAt(host, x)
  }

  predicate CleanAt(host: Host, x: Number) {
    var stale := Stale(host, x.offset, |Itoa(x.n)|);
    stale == [] || (x.n == 0 && Zeros(stale))
  }

  /** Each number, with the digits behind it, fits an int. */
  ghost predicate InRange(host: Host, numbers: set<Number>) {
    forall x :: x in numbers ==> InRangeAt(host, x)
  }

  predicate InRangeAt(host: Host, x: Number) {
    Decimal(Itoa(x.n) + Stale(host, x.offset, |Itoa(x.n)|)) <= INT_MAX
  }

  /** No hash anywhere in the value has a key twice. */
  ghost predicate DistinctThroughout(v: Value) {
    match v
    case ArrVal(items) => forall k :: 0 <= k < |items| ==> DistinctThroughout(items[k])
    case HashVal(members, _) =>
      DistinctKeys(members) && forall k :: 0 <= k < |members| ==> DistinctThroughout(members[k].val)
    case _ => true
  }

  /** The document that is read where a value is printed at offset o. */
  function Reading(host: Host, o: nat, v: Value): Doc
    requires Plain(v)
    decreases v
  {
    match v
    case IntVal(i) => Num(host.atoi(Copied(host.stack(o), Itoa(i))))
    case StrVal(s) => Str(s)
    case ArrVal(items) => Arr(ReadingItems(host, o + 1, items))
    case HashVal(members, _) => Obj(ReadingFields(host, o + 1, members))
  }

  function ReadingItems(host: Host, o: nat, items: seq<Value>): seq<Doc>
    requires forall k :: 0 <= k < |items| ==> Plain(items[k])
    decreases items
  {
    if items == [] then [] else [Reading(host, o, items[0])] + ReadingItems(host, AfterItem(o, items[0]), items[1..])
  }

  function ReadingFields(host: Host, o: nat, members: seq<Member>): map<string, Doc>
    requires forall k :: 0 <= k < |members| ==> PlainMember(members[k])
    decreases members
  {
    if members == [] then map[]
    else
      assert PlainMember(members[0]);
      map[members[0].key.s := ReadingMember(host, o, members[0])]
      + ReadingFields(host, AfterMember(o, members[0]), members[1..])
  }

  function ReadingMember(host: Host, o: nat, m: Member): Doc
    requires PlainMember(m)
    decreases m
  {
    Reading(host, ValueOffset(o, m), m.val)
  }
}
