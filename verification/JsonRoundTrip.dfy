/** Parsing what was printed gives the value back. */
module JsonRoundTrip {
  import opened JsonSpec

  ghost predicate At(t: Text, o: nat, s: string) {
    o + |s| <= |t.chars| && t.chars[o..o + |s|] == s
  }

  lemma AtSplit(t: Text, o: nat, a: string, b: string)
    requires At(t, o, a + b)
    ensures At(t, o, a) && At(t, o + |a|, b)
  {
    assert (a + b)[..|a|] == a && (a + b)[|a|..] == b;
    assert t.chars[o..o + |a + b|][..|a|] == t.chars[o..o + |a|];
    assert t.chars[o..o + |a + b|][|a|..] == t.chars[o + |a|..o + |a| + |b|];
  }

  lemma AtFirst(t: Text, o: nat, s: string)
    requires At(t, o, s) && s != []
    ensures t.chars[o] == s[0]
  {
    assert t.chars[o..o + |s|][0] == t.chars[o];
  }

  lemma AtParts(t: Text, o: nat, a: string, b: string, c: string, d: string)
    requires At(t, o, a + b + c + d) && a != [] && b != [] && d != []
    ensures At(t, o, a) && At(t, o + |a|, b) && At(t, o + |a| + |b|, c) && At(t, o + |a| + |b| + |c|, d)
    ensures t.chars[o] == a[0] && t.chars[o + |a|] == b[0] && t.chars[o + |a| + |b| + |c|] == d[0]
  {
    hide *;
    AtSplit(t, o, a + b + c, d);
    AtSplit(t, o, a + b, c);
    AtSplit(t, o, a, b);
    AtFirst(t, o, a);
    AtFirst(t, o + |a|, b);
    AtFirst(t, o + |a| + |b| + |c|, d);
  }

  // ---------- numbers ----------

  lemma {:induction false} DecimalOfDigits(n: nat)
    ensures Decimal(Digits(n)) == n
  {
    DigitReads(n % 10);
    if n < 10 {
      DecimalAppend("", Digit(n));
    } else {
      DecimalOfDigits(n / 10);
      DecimalAppend(Digits(n / 10), Digit(n % 10));
    }
  }

  lemma DecimalAppend(s: string, c: char)
    ensures Decimal(s + [c]) == Decimal(s) * 10 + DigitValue(c)
  {
    assert (s + [c])[..|s|] == s;
  }

  lemma DigitReads(d: nat)
    requires d < 10
    ensures DigitValue(Digit(d)) == d
  {}

  function Power10(k: nat): nat {
    if k == 0 then 1 else 10 * Power10(k - 1)
  }

  lemma {:induction false} DigitsLength(n: nat, k: nat)
    requires k > 0 && n < Power10(k)
    ensures |Digits(n)| <= k
  {
    if n >= 10 {
      DigitsLength(n / 10, k - 1);
    }
  }

  lemma IntFits(n: nat)
    requires n <= INT_MAX
    ensures |Digits(n)| <= 10
  {
    assert Power10(4) == 10000;
    assert Power10(8) == 100000000;
    assert Power10(10) == 10000000000;
    DigitsLength(n, 10);
  }

  lemma {:induction false} DigitsEndIs(t: Text, o: nat, e: nat)
    requires t.Valid() && o <= e <= t.limit + 1 && AllDigits(t.chars[o..e])
    requires e <= t.limit ==> !IsDigit(t.chars[e])
    ensures DigitsEnd(t, o) == e
    decreases e - o
  {
    if o < e {
      assert t.chars[o..e][0] == t.chars[o];
      assert t.chars[o..e][1..] == t.chars[o + 1..e];
      DigitsEndIs(t, o + 1, e);
    }
  }

  /** A run of digits that ends within the limit is handed to atoi as strncpy leaves it. */
  lemma NumberIs(t: Text, host: Host, o: nat, e: nat)
    requires t.Valid() && o < e <= t.limit + 1 && IsDigit(t.chars[o]) && DigitsEnd(t, o) == e && e - o <= 11
    ensures Parse(t, host, o)
         == Parsed(if e > t.limit then Null else Num(host.atoi(Copied(host.stack(o), t.chars[o..e]))), e)
  {
    hide DigitsEnd, Copied, Leading, ParseItems, ParseMembers, ParseWord, CloseQuote;
  }

  lemma FirstOfDigits(t: Text, o: nat, s: string)
    requires At(t, o, s) && s != [] && AllDigits(s)
    ensures IsDigit(t.chars[o]) && t.chars[o..o + |s|] == s
  {
    AtFirst(t, o, s);
  }

  lemma IntRoundTrip(t: Text, host: Host, o: nat, n: nat)
    requires t.Valid() && n <= INT_MAX && At(t, o, Itoa(n)) && o + |Itoa(n)| <= t.limit + 1
    requires !IsDigit(t.chars[o + |Itoa(n)|])
    ensures Parse(t, host, o)
         == Parsed(if o + |Itoa(n)| > t.limit then Null else Num(host.atoi(Copied(host.stack(o), Itoa(n)))),
                   o + |Itoa(n)|)
  {
    IntFits(n);
    var s := Digits(n);
    assert s == Itoa(n);
    hide Digits, Parse, DigitsEnd, Copied, At, Itoa;
    FirstOfDigits(t, o, s);
    DigitsEndIs(t, o, o + |s|);
    NumberIs(t, host, o, o + |s|);
  }

  lemma {:induction false} LeadingJoined(s: string, x: string)
    requires AllDigits(s)
    ensures Leading(s + x) == s + Leading(x)
  {
    hide *;
    if s == [] {
      NothingBefore(s, x);
      NothingBefore(s, Leading(x));
    } else {
      var c, tail := s[0], s[1..];
      FirstDigit(s);
      LeadingJoined(tail, x);
      LeadingStep(c, tail + x);
      Assoc([c], tail, x);
      Assoc([c], tail, Leading(x));
    }
  }

  lemma NothingBefore(s: string, x: string)
    requires s == []
    ensures s + x == x
  {}

  lemma FirstDigit(s: string)
    requires s != [] && AllDigits(s)
    ensures s == [s[0]] + s[1..] && IsDigit(s[0]) && AllDigits(s[1..])
  {}

  lemma LeadingStep(c: char, s: string)
    ensures Leading([c] + s) == if IsDigit(c) then [c] + Leading(s) else []
  {
    assert ([c] + s)[1..] == s;
  }

  /** More digits make a larger number, except for zeros behind a zero. */
  lemma {:induction false} MoreDigits(s: string, e: string)
    requires AllDigits(s) && AllDigits(e) && Decimal(s) >= 0
    ensures Decimal(s + e) >= Decimal(s)
    ensures Decimal(s + e) == Decimal(s) <==> e == [] || (Decimal(s) == 0 && Zeros(e))
  {
    if e == [] {
      assert s + e == s;
    } else {
      var e', c := e[..|e| - 1], e[|e| - 1];
      MoreDigits(s, e');
      assert s + e == s + e' + [c];
      DecimalAppend(s + e', c);
      assert Zeros(e) <==> Zeros(e') && c == '0';
    }
  }

  /** What atoi makes of a copied number: the number, if and only if the stack is clean behind it (the
      other direction where the whole run of digits fits an int). */
  lemma CopiedReads(host: Host, o: nat, n: nat)
    requires IsAtoi(host.atoi) && n <= INT_MAX
    ensures var x, r := Number(o, n), host.atoi(Copied(host.stack(o), Itoa(n)));
            && (CleanAt(host, x) ==> r == n)
            && (InRangeAt(host, x) && r == n ==> CleanAt(host, x))
  {
    IntFits(n);
    DecimalOfDigits(n);
    var s, stack := Digits(n), host.stack(o);
    assert s == Itoa(n);
    hide Digits, Itoa, Decimal, Leading;
    var stale := Stale(host, o, |s|);
    LeadingJoined(s, stack[|s|..]);
    assert Leading(s + stack[|s|..]) == s + stale;
    MoreDigits(s, stale);
  }

  // ---------- strings ----------

  lemma {:induction false} CloseQuoteIs(t: Text, o: nat, e: nat)
    requires t.Valid() && o <= e <= t.limit && '"' !in t.chars[o..e] && t.chars[e] == '"'
    ensures CloseQuote(t, o) == (true, e)
    decreases e - o
  {
    if o < e {
      assert t.chars[o] in t.chars[o..e];
      assert t.chars[o..e][1..] == t.chars[o + 1..e];
      CloseQuoteIs(t, o + 1, e);
    }
  }

  lemma StrRoundTrip(t: Text, host: Host, o: nat, s: string)
    requires t.Valid() && '"' !in s && At(t, o, "\"" + s + "\"") && o + |s| + 2 <= t.limit + 1
    ensures Parse(t, host, o) == Parsed(Str(s), o + |s| + 2)
  {
    AtSplit(t, o, "\"" + s, "\"");
    AtSplit(t, o, "\"", s);
    AtFirst(t, o, "\"");
    AtFirst(t, o + 1 + |s|, "\"");
    CloseQuoteIs(t, o + 1, o + 1 + |s|);
  }

  // ---------- one step of the parser ----------

  lemma OpenArray(t: Text, host: Host, o: nat)
    requires t.Valid() && o + 1 <= t.limit && t.chars[o] == '['
    ensures Parse(t, host, o) == ParseItems(t, host, o + 1, [])
  {}

  lemma OpenHash(t: Text, host: Host, o: nat)
    requires t.Valid() && o + 1 <= t.limit && t.chars[o] == '{'
    ensures Parse(t, host, o) == ParseMembers(t, host, o + 1, map[])
  {}

  lemma ItemStep(t: Text, host: Host, o: nat, acc: seq<Doc>, d: Doc, p: nat)
    requires t.Valid() && o <= p <= t.limit && t.chars[o] != ']' && Parse(t, host, o) == Parsed(d, p)
    ensures t.chars[p] == ',' ==> ParseItems(t, host, o, acc) == ParseItems(t, host, p + 1, acc + [d])
    ensures t.chars[p] == ']' ==> ParseItems(t, host, o, acc) == Parsed(Arr(acc + [d]), p + 1)
  {
    hide Parse, Skip;
    SkipStays(t, p);
  }

  lemma SkipStays(t: Text, o: nat)
    requires t.Valid() && o <= t.limit
    ensures !IsSpace(t.chars[o]) ==> Skip(t, o) == o
  {}

  lemma PairStep(t: Text, host: Host, o: nat, key: string, p: nat, d: Doc, q: nat)
    requires t.Valid() && o <= p <= t.limit && Parse(t, host, o) == Parsed(Str(key), p)
    requires t.chars[p] == ':' && Parse(t, host, p + 1) == Parsed(d, q)
    ensures ParsePair(t, host, o) == Pair(key, d, q)
  {
    hide Parse, Skip;
    SkipStays(t, p);
  }

  lemma MemberStep(t: Text, host: Host, o: nat, acc: map<string, Doc>, key: string, p: nat, d: Doc, q: nat)
    requires t.Valid() && o <= p < q <= t.limit && t.chars[o] == '"' && Parse(t, host, o) == Parsed(Str(key), p)
    requires t.chars[p] == ':' && Parse(t, host, p + 1) == Parsed(d, q)
    ensures t.chars[q] == ',' ==> ParseMembers(t, host, o, acc) == ParseMembers(t, host, q + 1, acc[key := d])
    ensures t.chars[q] == '}' ==> ParseMembers(t, host, o, acc) == Parsed(Obj(acc[key := d]), q + 1)
  {
    hide Parse, Skip, ParsePair;
    PairStep(t, host, o, key, p, d, q);
    SkipStays(t, q);
  }

  // ---------- where the printed parts are ----------

  lemma FirstChar(v: Value)
    requires Plain(v)
    ensures Print(v) != []
    ensures var c := Print(v)[0]; (IsDigit(c) || c == '"' || c == '[' || c == '{') && c != ']'
  {}

  lemma Assoc(a: string, b: string, c: string)
    ensures a + b + c == a + (b + c)
  {}

  lemma ItemsText(t: Text, o: nat, items: seq<Value>)
    requires items != [] && Plain(items[0]) && At(t, o, PrintItems(items) + "]")
    ensures At(t, o, Print(items[0])) && t.chars[o] != ']'
    ensures var p := o + |Print(items[0])|;
            if |items| == 1 then |PrintItems(items)| == |Print(items[0])| && t.chars[p] == ']'
            else |PrintItems(items)| == |Print(items[0])| + 1 + |PrintItems(items[1..])| && t.chars[p] == ','
                 && At(t, p + 1, PrintItems(items[1..]) + "]")
  {
    hide *;
    var first, rest := Print(items[0]), items[1..];
    FirstChar(items[0]);
    var after := if rest == [] then "" else "," + PrintItems(rest);
    ItemsPrinted(items);
    Assoc(first, after, "]");
    AtSplit(t, o, first, after + "]");
    AtFirst(t, o, first);
    AtFirst(t, o + |first|, after + "]");
    if rest != [] {
      Assoc(",", PrintItems(rest), "]");
      AtSplit(t, o + |first|, ",", PrintItems(rest) + "]");
    }
  }

  lemma ItemsPrinted(items: seq<Value>)
    requires items != []
    ensures PrintItems(items) == Print(items[0]) + if |items| == 1 then "" else "," + PrintItems(items[1..])
  {
    hide Print;
    var rest := items[1..];
    if rest != [] { Assoc(",", Print(rest[0]), PrintMoreItems(rest[1..])); }
  }

  lemma MembersPrinted(members: seq<Member>, count: int)
    requires members != [] && members[0].key.StrKey?
    ensures var m := members[0];
            var quoted := "\"" + m.key.s + "\"";
            PrintMembers(members, count)
            == quoted + ":" + Print(m.val) + ((if count == 1 then "" else ",") + PrintMembers(members[1..], count - 1))
  {
    hide Print;
    var m := members[0];
    Assoc("\"" + m.key.s + "\"" + ":" + Print(m.val), if count == 1 then "" else ",",
          PrintMembers(members[1..], count - 1));
  }

  lemma MembersText(t: Text, o: nat, members: seq<Member>, count: int)
    requires members != [] && |members| <= count && PlainMember(members[0])
             && At(t, o, PrintMembers(members, count) + "}")
    ensures var m := members[0];
            var p := o + |m.key.s| + 2;
            var q := p + 1 + |Print(m.val)|;
            && At(t, o, "\"" + m.key.s + "\"") && t.chars[o] == '"' && At(t, p, ":") && t.chars[p] == ':'
            && At(t, p + 1, Print(m.val))
            && (if count == 1 then o + |PrintMembers(members, count)| == q && t.chars[q] == '}'
                else o + |PrintMembers(members, count)| == q + 1 + |PrintMembers(members[1..], count - 1)|
                     && t.chars[q] == ','
                     && At(t, q + 1, PrintMembers(members[1..], count - 1) + "}"))
  {
    hide Print, PrintMembers, At, Plain;
    var m, rest := members[0], members[1..];
    var quoted, val := "\"" + m.key.s + "\"", Print(m.val);
    MembersPrinted(members, count);
    QuotedIs(m.key.s);
    if count == 1 {
      NoMembers(rest, 0);
      LastText(t, o, quoted, val);
    } else {
      MoreText(t, o, quoted, val, PrintMembers(rest, count - 1));
    }
  }

  lemma NoMembers(members: seq<Member>, count: int)
    requires members == []
    ensures PrintMembers(members, count) == "" && "" + "" == ""
  {}

  lemma QuotedIs(s: string)
    ensures |"\"" + s + "\""| == |s| + 2 && ("\"" + s + "\"")[0] == '"'
  {}

  lemma LastText(t: Text, o: nat, quoted: string, val: string)
    requires At(t, o, quoted + ":" + val + "" + "}") && quoted != []
    ensures && At(t, o, quoted) && t.chars[o] == quoted[0] && At(t, o + |quoted|, ":") && t.chars[o + |quoted|] == ':'
            && At(t, o + |quoted| + 1, val) && t.chars[o + |quoted| + 1 + |val|] == '}'
  {
    hide *;
    var body := quoted + ":" + val;
    assert body + "" == body;
    AtParts(t, o, quoted, ":", val, "}");
  }

  lemma MoreText(t: Text, o: nat, quoted: string, val: string, more: string)
    requires At(t, o, quoted + ":" + val + ("," + more) + "}") && quoted != []
    ensures var q := o + |quoted| + 1 + |val|;
            && At(t, o, quoted) && t.chars[o] == quoted[0] && At(t, o + |quoted|, ":") && t.chars[o + |quoted|] == ':'
            && At(t, o + |quoted| + 1, val) && t.chars[q] == ',' && At(t, q + 1, more + "}")
  {
    hide *;
    Assoc(quoted + ":" + val, "," + more, "}");
    Assoc(",", more, "}");
    AtParts(t, o, quoted, ":", val, "," + (more + "}"));
    AtSplit(t, o + |quoted| + 1 + |val|, ",", more + "}");
  }

  // ---------- values ----------

  /** Parsing a printed value, followed by anything but a digit, stops right after it and gives what its
      numbers read as, with one exception: a number that reaches the limit is refused. */
  lemma {:induction false} ParsePrinted(t: Text, host: Host, o: nat, v: Value)
    requires t.Valid() && Plain(v)
    requires At(t, o, Print(v)) && o + |Print(v)| <= t.limit + 1 && !IsDigit(t.chars[o + |Print(v)|])
    ensures Parse(t, host, o)
         == Parsed(if v.IntVal? && o + |Print(v)| > t.limit then Null else Reading(host, o, v), o + |Print(v)|)
    decreases v, 1
  {
    hide PrintItems, PrintMembers, At, Parse, ParseItems, ParseMembers, Itoa, Copied, ReadingItems, ReadingFields;
    match v
    case IntVal(i) => IntRoundTrip(t, host, o, i);
    case StrVal(s) => StrRoundTrip(t, host, o, s);
    case ArrVal(items) =>
      EnclosedText(t, o, "[", PrintItems(items), "]");
      if items == [] {
        EmptyArray(t, host, o);
      } else {
        OpenArray(t, host, o);
        ItemsRoundTrip(t, host, o + 1, items, []);
        assert [] + ReadingItems(host, o + 1, items) == ReadingItems(host, o + 1, items);
      }
    case HashVal(members, count) =>
      EnclosedText(t, o, "{", PrintMembers(members, count), "}");
      OpenHash(t, host, o);
      MembersRoundTrip(t, host, o + 1, members, count, map[]);
      assert map[] + ReadingFields(host, o + 1, members) == ReadingFields(host, o + 1, members);
  }

  lemma EnclosedText(t: Text, o: nat, open: string, inner: string, close: string)
    requires |open| == |close| == 1 && At(t, o, open + inner + close)
    ensures t.chars[o] == open[0] && At(t, o + 1, inner + close) && t.chars[o + 1 + |inner|] == close[0]
  {
    assert open + inner + close == open + (inner + close);
    AtSplit(t, o, open, inner + close);
    AtSplit(t, o + 1, inner, close);
    AtFirst(t, o, open);
    AtFirst(t, o + 1 + |inner|, close);
  }

  lemma EmptyArray(t: Text, host: Host, o: nat)
    requires t.Valid() && At(t, o, "[" + PrintItems([]) + "]") && o + 1 <= t.limit
    ensures Parse(t, host, o) == Parsed(Arr([]), o + 2) && PrintItems([]) == "" && ReadingItems(host, o + 1, []) == []
  {
    EnclosedText(t, o, "[", PrintItems([]), "]");
  }

  lemma {:induction false} ItemsRoundTrip(t: Text, host: Host, o: nat, items: seq<Value>, acc: seq<Doc>)
    requires t.Valid() && items != [] && forall k :: 0 <= k < |items| ==> Plain(items[k])
    requires At(t, o, PrintItems(items) + "]") && o + |PrintItems(items)| + 1 <= t.limit + 1
    ensures ParseItems(t, host, o, acc) == Parsed(Arr(acc + ReadingItems(host, o, items)), o + |PrintItems(items)| + 1)
    decreases items, 0
  {
    hide PrintItems, Print, At, Parse, ParseItems, Plain, Reading, ReadingItems;
    ItemsText(t, o, items);
    var rest, p, d := items[1..], o + |Print(items[0])|, Reading(host, o, items[0]);
    ParsePrinted(t, host, o, items[0]);
    ItemStep(t, host, o, acc, d, p);
    FirstReading(host, o, items, acc);
    if rest != [] {
      ItemsRoundTrip(t, host, p + 1, rest, acc + [d]);
    }
  }

  lemma FirstReading(host: Host, o: nat, items: seq<Value>, acc: seq<Doc>)
    requires items != [] && forall k :: 0 <= k < |items| ==> Plain(items[k])
    ensures var d := Reading(host, o, items[0]);
            acc + ReadingItems(host, o, items)
            == if |items| == 1 then acc + [d] else acc + [d] + ReadingItems(host, AfterItem(o, items[0]), items[1..])
  {
    hide Reading, Plain, Print;
    var d, more := Reading(host, o, items[0]), ReadingItems(host, AfterItem(o, items[0]), items[1..]);
    assert acc + ([d] + more) == acc + [d] + more;
    if |items| == 1 { assert more == [] && acc + [d] + [] == acc + [d]; }
  }

  /** The comma that is printed behind the last entry when some were lost is no obstacle. */
  lemma {:induction false} MembersRoundTrip(t: Text, host: Host, o: nat, members: seq<Member>, count: int,
                                            acc: map<string, Doc>)
    requires t.Valid() && |members| <= count && forall k :: 0 <= k < |members| ==> PlainMember(members[k])
    requires At(t, o, PrintMembers(members, count) + "}") && o + |PrintMembers(members, count)| + 1 <= t.limit + 1
    ensures ParseMembers(t, host, o, acc)
         == Parsed(Obj(acc + ReadingFields(host, o, members)), o + |PrintMembers(members, count)| + 1)
    decreases members, 0
  {
    hide PrintMembers, Print, At, Parse, ParseMembers, Plain, Reading, ReadingFields, ReadingMember;
    if members == [] {
      NoMembersLeft(t, host, o, members, count, acc);
    } else {
      MembersText(t, o, members, count);
      var m, rest := members[0], members[1..];
      var d := ReadingMember(host, o, m);
      var p := o + |m.key.s| + 2;
      var q := p + 1 + |Print(m.val)|;
      StrRoundTrip(t, host, o, m.key.s);
      MemberRoundTrip(t, host, o, m);
      MemberStep(t, host, o, acc, m.key.s, p, d, q);
      FirstField(host, o, members, acc);
      if count == 1 {
        assert acc[m.key.s := d] + map[] == acc[m.key.s := d];
      } else {
        MembersRoundTrip(t, host, q + 1, rest, count - 1, acc[m.key.s := d]);
      }
    }
  }

  lemma NoMembersLeft(t: Text, host: Host, o: nat, members: seq<Member>, count: int, acc: map<string, Doc>)
    requires t.Valid() && members == [] && At(t, o, PrintMembers(members, count) + "}") && o <= t.limit
    ensures PrintMembers(members, count) == "" && ParseMembers(t, host, o, acc) == Parsed(Obj(acc), o + 1)
    ensures acc + ReadingFields(host, o, members) == acc
  {
    assert "" + "}" == "}";
    AtFirst(t, o, "}");
  }

  lemma FirstField(host: Host, o: nat, members: seq<Member>, acc: map<string, Doc>)
    requires members != [] && forall k :: 0 <= k < |members| ==> PlainMember(members[k])
    ensures var m := members[0];
            acc + ReadingFields(host, o, members)
            == acc[m.key.s := ReadingMember(host, o, m)]
               + ReadingFields(host, AfterMember(o, m), members[1..])
    ensures |members| == 1 ==> ReadingFields(host, AfterMember(o, members[0]), members[1..]) == map[]
  {
    hide ReadingMember, AfterMember, PlainMember;
  }

  lemma {:induction false} MemberRoundTrip(t: Text, host: Host, o: nat, m: Member)
    requires t.Valid() && PlainMember(m)
    requires var p := ValueOffset(o, m);
             At(t, p, Print(m.val)) && p + |Print(m.val)| <= t.limit && !IsDigit(t.chars[p + |Print(m.val)|])
    ensures Parse(t, host, ValueOffset(o, m)) == Parsed(ReadingMember(host, o, m), ValueOffset(o, m) + |Print(m.val)|)
    decreases m, 0
  {
    ParsePrinted(t, host, ValueOffset(o, m), m.val);
  }

  // ---------- what is read is what was meant ----------

  lemma {:induction false} ReadingIsMeaning(host: Host, o: nat, v: Value)
    requires IsAtoi(host.atoi) && Plain(v)
    ensures Clean(host, Numbers(o, v)) ==> Reading(host, o, v) == Meaning(v)
    ensures (InRange(host, Numbers(o, v)) && DistinctThroughout(v) && Reading(host, o, v) == Meaning(v))
            ==> Clean(host, Numbers(o, v))
    decreases v, 1
  {
    hide IsAtoi, CleanAt, InRangeAt, ReadingItems, ReadingFields, ItemNumbers, MemberNumbers, Fields;
    match v
    case IntVal(i) =>
      CopiedReads(host, o, i);
      assert Number(o, i) in Numbers(o, v);
    case ArrVal(items) => ReadingItemsMean(host, o + 1, items);
    case HashVal(members, _) => ReadingFieldsMean(host, o + 1, members);
    case _ =>
  }

  function Meanings(items: seq<Value>): seq<Doc>
    requires forall k :: 0 <= k < |items| ==> Plain(items[k])
  {
    seq(|items|, k requires 0 <= k < |items| => Meaning(items[k]))
  }

  lemma Both(host: Host, a: set<Number>, b: set<Number>)
    ensures Clean(host, a + b) <==> Clean(host, a) && Clean(host, b)
    ensures InRange(host, a + b) <==> InRange(host, a) && InRange(host, b)
  {
    hide CleanAt, InRangeAt;
  }

  lemma {:induction false} ReadingItemsMean(host: Host, o: nat, items: seq<Value>)
    requires IsAtoi(host.atoi) && forall k :: 0 <= k < |items| ==> Plain(items[k])
    ensures Clean(host, ItemNumbers(o, items)) ==> ReadingItems(host, o, items) == Meanings(items)
    ensures (InRange(host, ItemNumbers(o, items)) && (forall k :: 0 <= k < |items| ==> DistinctThroughout(items[k]))
             && ReadingItems(host, o, items) == Meanings(items)) ==> Clean(host, ItemNumbers(o, items))
    decreases items, 0
  {
    hide IsAtoi, Clean, InRange, Reading, Meaning, DistinctThroughout, Plain, Numbers, Print;
    if items == [] {
      Both(host, {}, {});
      NoNumbers(host);
    } else {
      var rest, p := items[1..], AfterItem(o, items[0]);
      ReadingIsMeaning(host, o, items[0]);
      ReadingItemsMean(host, p, rest);
      Both(host, Numbers(o, items[0]), ItemNumbers(p, rest));
      FirstItem(Meaning(items[0]), Meanings(rest), Reading(host, o, items[0]), ReadingItems(host, p, rest));
      assert Meanings(items) == [Meaning(items[0])] + Meanings(rest);
    }
  }

  lemma NoNumbers(host: Host)
    ensures Clean(host, {}) && InRange(host, {})
  {}

  lemma FirstItem(a: Doc, s: seq<Doc>, b: Doc, t: seq<Doc>)
    ensures [a] + s == [b] + t <==> a == b && s == t
  {
    if [a] + s == [b] + t {
      assert ([a] + s)[0] == ([b] + t)[0] && ([a] + s)[1..] == s && ([b] + t)[1..] == t;
    }
  }

  lemma {:induction false} ReadingFieldsMean(host: Host, o: nat, members: seq<Member>)
    requires IsAtoi(host.atoi) && forall k :: 0 <= k < |members| ==> PlainMember(members[k])
    ensures ReadingFields(host, o, members).Keys == Fields(members).Keys
    ensures Clean(host, MemberNumbers(o, members)) ==> ReadingFields(host, o, members) == Fields(members)
    ensures (InRange(host, MemberNumbers(o, members)) && DistinctKeys(members)
             && (forall k :: 0 <= k < |members| ==> DistinctThroughout(members[k].val))
             && ReadingFields(host, o, members) == Fields(members)) ==> Clean(host, MemberNumbers(o, members))
    decreases members, 0
  {
    hide IsAtoi, Clean, InRange, DistinctThroughout, PlainMember, Print, ReadingMember, MemberMeaning, ValueNumbers;
    if members == [] {
      NoNumbers(host);
    } else {
      var m, rest, p := members[0], members[1..], AfterMember(o, members[0]);
      ReadingMemberMeans(host, o, m);
      ReadingFieldsMean(host, p, rest);
      Both(host, ValueNumbers(o, m), MemberNumbers(p, rest));
      FirstKey(members);
      FirstEntry(m.key.s, MemberMeaning(m), Fields(rest), ReadingMember(host, o, m), ReadingFields(host, p, rest));
    }
  }

  lemma FirstKey(members: seq<Member>)
    requires members != [] && forall k :: 0 <= k < |members| ==> PlainMember(members[k])
    ensures members[0].key.StrKey?
    ensures DistinctKeys(members) ==> DistinctKeys(members[1..]) && members[0].key.s !in Fields(members[1..])
  {
    if DistinctKeys(members) {
      var rest := members[1..];
      assert forall k :: 0 <= k < |rest| ==> rest[k] == members[k + 1];
      FieldsAt(rest, members[0].key.s);
    }
  }

  lemma FirstEntry(key: string, a: Doc, f: map<string, Doc>, b: Doc, g: map<string, Doc>)
    requires f.Keys == g.Keys
    ensures (map[key := b] + g).Keys == (map[key := a] + f).Keys
    ensures b == a && g == f ==> map[key := b] + g == map[key := a] + f
    ensures key !in f && map[key := b] + g == map[key := a] + f ==> b == a && g == f
  {
    var f', g' := map[key := a] + f, map[key := b] + g;
    if key !in f && g' == f' {
      assert f'[key] == a && g'[key] == b;
      forall k | k in f ensures f[k] == g[k] { assert f'[k] == f[k] && g'[k] == g[k]; }
    }
  }

  lemma {:induction false} ReadingMemberMeans(host: Host, o: nat, m: Member)
    requires IsAtoi(host.atoi) && PlainMember(m)
    ensures Clean(host, ValueNumbers(o, m)) ==> ReadingMember(host, o, m) == MemberMeaning(m)
    ensures (InRange(host, ValueNumbers(o, m)) && DistinctThroughout(m.val)
             && ReadingMember(host, o, m) == MemberMeaning(m))
            ==> Clean(host, ValueNumbers(o, m))
    decreases m, 0
  {
    ReadingIsMeaning(host, ValueOffset(o, m), m.val);
  }

  /** Parsing a printed value, followed by anything but a digit, stops right after it and gives its meaning
      back if and only if the stack is clean behind each number.  (That it does not otherwise is said for
      values without repeated keys whose numbers, with what is behind them, fit an int.)  The exception is
      a number that reaches the limit, which is refused. */
  lemma RoundTrip(t: Text, host: Host, o: nat, v: Value)
    requires t.Valid() && IsAtoi(host.atoi) && Plain(v)
    requires At(t, o, Print(v)) && o + |Print(v)| <= t.limit + 1 && !IsDigit(t.chars[o + |Print(v)|])
    ensures var r := Parse(t, host, o);
            && r.next == o + |Print(v)|
            && if v.IntVal? && r.next > t.limit then r.doc == Null
               else (Clean(host, Numbers(o, v)) ==> r.doc == Meaning(v))
                    && ((InRange(host, Numbers(o, v)) && DistinctThroughout(v) && r.doc == Meaning(v))
                        ==> Clean(host, Numbers(o, v)))
  {
    hide *;
    ParsePrinted(t, host, o, v);
    ReadingIsMeaning(host, o, v);
  }

  /** Without a terminator the digits of an earlier number stay behind a shorter one: when the buffer is
      where it was for the first number, [12,3] reads as 12 and 32. */
  lemma StaleDigitRead(t: Text, host: Host, o: nat)
    requires t.Valid() && IsAtoi(host.atoi) && At(t, o, "[12,3]") && o + 5 <= t.limit
    requires !IsDigit(host.stack(o + 1)[2]) && host.stack(o + 4) == Copied(host.stack(o + 1), "12")
    ensures Parse(t, host, o) == Parsed(Arr([Num(12), Num(32)]), o + 6)
  {
    At6(t, o);
    DigitsEndIs(t, o + 1, o + 3);
    DigitsEndIs(t, o + 4, o + 5);
    NumberIs(t, host, o + 1, o + 3);
    NumberIs(t, host, o + 4, o + 5);
    OpenArray(t, host, o);
    var first, second := host.stack(o + 1), host.stack(o + 4);
    TwoDigits(host.atoi, "12" + first[2..]);
    assert Copied(first, "12") == "12" + first[2..];
    assert Copied(second, "3") == "3" + second[1..];
    TwoDigits(host.atoi, "3" + second[1..]);
    hide Parse, ParseItems, Copied;
    ItemStep(t, host, o + 1, [], Num(12), o + 3);
    ItemStep(t, host, o + 4, [Num(12)], Num(32), o + 5);
    assert [] + [Num(12)] == [Num(12)] && [Num(12)] + [Num(32)] == [Num(12), Num(32)];
  }

  lemma At6(t: Text, o: nat)
    requires At(t, o, "[12,3]")
    ensures t.chars[o] == '[' && t.chars[o + 3] == ',' && t.chars[o + 5] == ']'
    ensures t.chars[o + 1..o + 3] == "12" && t.chars[o + 4..o + 5] == "3"
  {
    var s := t.chars[o..o + 6];
    assert s[0] == t.chars[o] && s[1] == t.chars[o + 1] && s[2] == t.chars[o + 2];
    assert s[3] == t.chars[o + 3] && s[4] == t.chars[o + 4] && s[5] == t.chars[o + 5];
  }

  /** Two digits and no third. */
  lemma TwoDigits(atoi: Atoi, s: string)
    requires IsAtoi(atoi) && |s| >= 3 && IsDigit(s[0]) && IsDigit(s[1]) && !IsDigit(s[2])
    ensures atoi(s) == DigitValue(s[0]) * 10 + DigitValue(s[1])
  {
    LeadingJoined(s[..2], s[2..]);
    assert s == s[..2] + s[2..];
    assert Leading(s) == s[..2] == [s[0]] + [s[1]];
    DecimalAppend([], s[0]);
    DecimalAppend([s[0]], s[1]);
    assert [] + [s[0]] == [s[0]];
  }

  /** Unlike section 5 of RFC 8259 asks, white space between the brackets of an empty array reads as an
      item: the array holds one null. */
  lemma BlankArrayHoldsNull(t: Text, host: Host, o: nat, e: nat)
    requires t.Valid() && o < e <= t.limit && t.chars[o] == '[' && t.chars[e] == ']'
    requires forall k :: o < k < e ==> IsSpace(t.chars[k])
    ensures Parse(t, host, o) == Parsed(Arr(if e == o + 1 then [] else [Null]), e + 1)
  {
    OpenArray(t, host, o);
    if o + 1 < e {
      SkipSpaces(t, o + 1, e);
      ItemStep(t, host, o + 1, [], Null, e);
    }
  }

  lemma {:induction false} SkipSpaces(t: Text, o: nat, e: nat)
    requires t.Valid() && o <= e <= t.limit && !IsSpace(t.chars[e])
    requires forall k :: o <= k < e ==> IsSpace(t.chars[k])
    ensures Skip(t, o) == e
    decreases e - o
  {
    if o < e { SkipSpaces(t, o + 1, e); }
  }
}
