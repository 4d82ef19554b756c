/** More about datastructs/json.c: the words, numbers that are not read, white space, trailing commas, and hashes with
    integer keys. */
module JsonLaws {
  import opened JsonSpec
  import opened JsonRoundTrip

  /** true reads as 1. */
  lemma TrueIsOne(t: Text, host: Host, o: nat)
    requires t.Valid() && At(t, o, "true") && o + 3 <= t.limit
    ensures Parse(t, host, o) == Parsed(Num(1), o + 4)
  {
    var w := "true";
    assert w == t.chars[o..o + 4];
    assert t.chars[o] == w[0] && t.chars[o + 1] == w[1] && t.chars[o + 2] == w[2] && t.chars[o + 3] == w[3];
    assert w[1..] == "rue" && w[1..][1..] == "ue" && w[1..][1..][1..] == "e";
  }

  /** false reads as 0. */
  lemma FalseIsZero(t: Text, host: Host, o: nat)
    requires t.Valid() && At(t, o, "false") && o + 4 <= t.limit
    ensures Parse(t, host, o) == Parsed(Num(0), o + 5)
  {
    var w := "false";
    assert w == t.chars[o..o + 5];
    assert t.chars[o] == w[0] && t.chars[o + 1] == w[1] && t.chars[o + 2] == w[2] && t.chars[o + 3] == w[3];
    assert t.chars[o + 4] == w[4];
    assert w[1..] == "alse" && w[1..][1..] == "lse" && w[1..][1..][1..] == "se" && w[1..][1..][1..][1..] == "e";
  }

  /** Blanks, tabs and line ends in front of a value are skipped. */
  lemma SpaceIsSkipped(t: Text, host: Host, o: nat, e: nat)
    requires t.Valid() && o <= e <= t.limit && t.chars[e] as int != 32 && !(9 <= t.chars[e] as int <= 13)
    requires forall k :: o <= k < e ==> t.chars[k] as int == 32 || 9 <= t.chars[k] as int <= 13
    ensures Parse(t, host, o) == Parse(t, host, e)
  {
    SkipSpaces(t, o, e);
    SkipSpaces(t, e, e);
  }

  /** A comma may come before the closing bracket. */
  lemma TrailingComma(t: Text, host: Host, o: nat, acc: seq<Doc>, d: Doc, p: nat)
    requires t.Valid() && o <= p < t.limit && t.chars[o] != ']' && Parse(t, host, o) == Parsed(d, p)
    requires t.chars[p] == ',' && t.chars[p + 1] == ']'
    ensures ParseItems(t, host, o, acc) == Parsed(Arr(acc + [d]), p + 2)
  {
    hide Parse;
    ItemStep(t, host, o, acc, d, p);
  }

  /** A run of twelve digits or more is refused. */
  lemma LongNumberRefused(t: Text, host: Host, o: nat, e: nat)
    requires t.Valid() && o + 11 < e <= t.limit + 1 && AllDigits(t.chars[o..e])
    requires e <= t.limit ==> !IsDigit(t.chars[e])
    ensures Parse(t, host, o) == Parsed(Null, e)
  {
    DigitsEndIs(t, o, e);
    assert t.chars[o..e][0] == t.chars[o];
    hide DigitsEnd, AllDigits, Leading, ParseItems, ParseMembers, ParseWord, CloseQuote;
  }

  /** A negative number prints as a minus sign and its digits, and is not read. */
  lemma NegativeRefused(t: Text, host: Host, o: nat, n: int)
    requires t.Valid() && n > 0 && At(t, o, Itoa(-n)) && o <= t.limit
    ensures Itoa(-n)[0] == '-' && AllDigits(Itoa(-n)[1..]) && Decimal(Itoa(-n)[1..]) == n
    ensures Parse(t, host, o) == Parsed(Null, o)
  {
    DecimalOfDigits(n);
    assert Itoa(-n)[1..] == Digits(n);
    AtFirst(t, o, Itoa(-n));
  }

  // ---------- what is refused ----------

  /** A value starts with a bracket, a brace, a quote, a digit, t or f. */
  lemma OtherStartRefused(t: Text, host: Host, o: nat)
    requires t.Valid() && o <= t.limit && !IsSpace(t.chars[o]) && !IsDigit(t.chars[o])
    requires t.chars[o] !in {'[', '{', '"', 't', 'f'}
    ensures Parse(t, host, o) == Parsed(Null, o)
  {}

  /** Of t and f only the whole words are read. */
  lemma MisspeltRefused(t: Text, host: Host, o: nat)
    requires t.Valid() && o + 4 <= t.limit
    requires (t.chars[o] == 't' && !At(t, o, "true")) || (t.chars[o] == 'f' && !At(t, o, "false"))
    ensures Parse(t, host, o).doc == Null
  {
    var w := if t.chars[o] == 't' then "true" else "false";
    assert |w| <= 5;
    NotSpeltOut(t, o, w);
    Misspelt(t, o, w, 0, if w == "true" then Num(1) else Num(0));
    assert w[0..] == w;
    hide ParseWord, At;
  }

  lemma NotSpeltOut(t: Text, o: nat, w: string)
    requires o + |w| <= |t.chars| && !At(t, o, w)
    ensures exists k :: 0 <= k < |w| && t.chars[o + k] != w[k]
  {
    var s := t.chars[o..o + |w|];
    var k :| 0 <= k < |w| && s[k] != w[k];
    assert t.chars[o + k] == s[k];
  }

  lemma {:induction false} Misspelt(t: Text, o: nat, w: string, i: nat, doc: Doc)
    requires t.Valid() && i < |w| && o + |w| - 1 <= t.limit
    requires !(forall k :: i <= k < |w| ==> t.chars[o + k] == w[k])
    ensures ParseWord(t, o + i, w[i..], doc).doc == Null
    decreases |w| - i
  {
    assert w[i..][0] == w[i] && (i + 1 < |w| ==> w[i..][1..] == w[i + 1..]);
    if t.chars[o + i] == w[i] { Misspelt(t, o, w, i + 1, doc); }
  }

  /** A string must be closed before the limit. */
  lemma {:induction false} NoQuoteFound(t: Text, o: nat)
    requires t.Valid() && o <= t.limit + 1 && '"' !in t.chars[o..t.limit + 2]
    ensures !CloseQuote(t, o).0
    decreases t.limit + 1 - o
  {
    assert t.chars[o] in t.chars[o..t.limit + 2];
    if o + 1 <= t.limit {
      assert t.chars[o..t.limit + 2][1..] == t.chars[o + 1..t.limit + 2];
      NoQuoteFound(t, o + 1);
    }
  }

  lemma UnclosedRefused(t: Text, host: Host, o: nat)
    requires t.Valid() && o <= t.limit && t.chars[o] == '"' && '"' !in t.chars[o + 1..t.limit + 2]
    ensures Parse(t, host, o).doc == Null
  {
    NoQuoteFound(t, o + 1);
  }

  /** Behind an item there must be a comma or the bracket, otherwise the array is lost. */
  lemma ItemsNeedSeparators(t: Text, host: Host, o: nat, acc: seq<Doc>, d: Doc, p: nat, q: nat)
    requires t.Valid() && o <= p <= q <= t.limit && t.chars[o] != ']' && Parse(t, host, o) == Parsed(d, p)
    requires (forall k :: p <= k < q ==> IsSpace(t.chars[k])) && !IsSpace(t.chars[q]) && t.chars[q] !in {',', ']'}
    ensures ParseItems(t, host, o, acc) == Parsed(Null, q)
  {
    SkipSpaces(t, p, q);
    hide Parse, Skip;
  }

  /** Likewise in a hash, whose keys must be strings, with a colon behind them. */
  lemma MembersNeedSeparators(t: Text, host: Host, o: nat, acc: map<string, Doc>, key: string, d: Doc, p: nat, q: nat)
    requires t.Valid() && o <= p <= q <= t.limit && t.chars[o] != '}' && ParsePair(t, host, o) == Pair(key, d, p)
    requires (forall k :: p <= k < q ==> IsSpace(t.chars[k])) && !IsSpace(t.chars[q]) && t.chars[q] !in {',', '}'}
    ensures ParseMembers(t, host, o, acc) == Parsed(Null, q)
  {
    SkipSpaces(t, p, q);
    hide ParsePair, Skip;
  }

  lemma KeysAreStrings(t: Text, host: Host, o: nat, acc: map<string, Doc>, p: nat, q: nat)
    requires t.Valid() && o <= p <= q <= t.limit && t.chars[o] != '}' && Parse(t, host, o).next == p
    requires (forall k :: p <= k < q ==> IsSpace(t.chars[k])) && !IsSpace(t.chars[q])
    requires !Parse(t, host, o).doc.Str? || t.chars[q] != ':'
    ensures ParseMembers(t, host, o, acc).doc == Null
  {
    SkipSpaces(t, p, q);
    hide Parse, Skip;
  }

  // ---------- integer keys ----------

  /** The value with every integer key as the string of its digits. */
  function AsStrings(v: Value): Value
    decreases v, 1
  {
    match v
    case ArrVal(items) => ArrVal(ItemsAsStrings(items))
    case HashVal(members, count) => HashVal(MembersAsStrings(members), count)
    case _ => v
  }

  function ItemsAsStrings(items: seq<Value>): seq<Value>
    decreases items, 0
  {
    if items == [] then [] else [AsStrings(items[0])] + ItemsAsStrings(items[1..])
  }

  function MembersAsStrings(members: seq<Member>): seq<Member>
    decreases members, 0
  {
    if members == [] then [] else [MemberAsString(members[0])] + MembersAsStrings(members[1..])
  }

  function MemberAsString(m: Member): Member
    decreases m, 0
  {
    Member(if m.key.IntKey? then StrKey(Itoa(m.key.i)) else m.key, AsStrings(m.val))
  }

  lemma {:induction false} SamePrinted(v: Value)
    ensures Print(AsStrings(v)) == Print(v)
    decreases v, 1
  {
    match v
    case ArrVal(items) =>
      SamePrintedItems(items);
    case HashVal(members, count) => SamePrintedMembers(members, count);
    case _ =>
  }

  lemma {:induction false} SamePrintedItems(items: seq<Value>)
    ensures PrintItems(ItemsAsStrings(items)) == PrintItems(items)
    ensures PrintMoreItems(ItemsAsStrings(items)) == PrintMoreItems(items)
    decreases items, 0
  {
    if items != [] {
      SamePrinted(items[0]);
      SamePrintedItems(items[1..]);
      assert ItemsAsStrings(items)[1..] == ItemsAsStrings(items[1..]);
    }
  }

  lemma {:induction false} SamePrintedMembers(members: seq<Member>, count: int)
    ensures PrintMembers(MembersAsStrings(members), count) == PrintMembers(members, count)
    decreases members, 0
  {
    if members != [] {
      SamePrintedMember(members[0]);
      SamePrintedMembers(members[1..], count - 1);
      assert MembersAsStrings(members)[1..] == MembersAsStrings(members[1..]);
    }
  }

  lemma {:induction false} SamePrintedMember(m: Member)
    ensures PrintMember(MemberAsString(m)) == PrintMember(m)
    decreases m, 0
  {
    SamePrinted(m.val);
  }

  /** A hash with integer keys comes back with the strings of their digits as keys. */
  lemma IntKeysReadAsStrings(t: Text, host: Host, o: nat, v: Value)
    requires t.Valid() && IsAtoi(host.atoi) && Plain(AsStrings(v))
    requires At(t, o, Print(v)) && o + |Print(v)| <= t.limit + 1 && !IsDigit(t.chars[o + |Print(v)|])
    ensures var r, s := Parse(t, host, o), AsStrings(v);
            && r.next == o + |Print(v)|
            && if v.IntVal? && r.next > t.limit then r.doc == Null
               else (Clean(host, Numbers(o, s)) ==> r.doc == Meaning(s))
                    && ((InRange(host, Numbers(o, s)) && DistinctThroughout(s) && r.doc == Meaning(s))
                        ==> Clean(host, Numbers(o, s)))
  {
    SamePrinted(v);
    hide Parse, Print, Plain, Clean, InRange, DistinctThroughout, Meaning, Numbers, At;
    RoundTrip(t, host, o, AsStrings(v));
  }
}
