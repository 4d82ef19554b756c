/** datastructs/json.c as the source runs it: a parser that advances a data pointer and an offset side
    by side, and a printer that appends to a growing text. */
module Jsons {
  import opened JsonSpec
  import opened JsonRoundTrip

  class Parser {
    /** The readable memory, and where the text starts in it. */
    const memory: string
    const start: nat
    const limit: int
    const host: Host
    var data: int
    var offset: int

    /** Memory is readable up to one character beyond the limit. */
    constructor (memory: string, start: nat, limit: int, host: Host)
      requires -1 <= limit && start + limit + 2 <= |memory|
      ensures Valid() && offset == 0
      ensures this.start == start && this.host == host && Input() == Text(memory[start..], limit)
    {
      this.memory, this.start, this.limit, this.host := memory, start, limit, host;
      data, offset := start, 0;
    }

    ghost function Input(): Text
      requires start <= |memory|
    {
      Text(memory[start..], limit)
    }

    /** The pointer and the offset advance together, and not past what is readable. */
    ghost predicate Valid()
      reads this
    {
      start <= |memory| && Input().Valid() && data == start + offset && 0 <= offset <= limit + 2
    }

    method Forward()
      requires Valid() && offset < limit + 2
      modifies this
      ensures Valid() && offset == old(offset) + 1
    {
      data := data + 1;
      offset := offset + 1;
    }

    /** skip_ws. */
    method SkipSpace() returns (ok: bool)
      requires Valid()
      modifies this
      ensures Valid() && offset == Skip(Input(), old(offset)) && ok == (offset <= limit)
    {
      if offset > limit {
        return false;
      }
      while IsSpace(memory[data])
        invariant Valid() && offset <= limit && Skip(Input(), offset) == Skip(Input(), old(offset))
        decreases limit - offset
      {
        Forward();
        if offset > limit {
          return false;
        }
      }
      ok := true;
    }

    /** json_to_object_internal. */
    method Value() returns (doc: Doc)
      requires Valid()
      modifies this
      ensures Valid() && Parsed(doc, offset) == Parse(Input(), host, old(offset))
      decreases limit + 2 - offset, 0
    {
      hide Skip, CloseQuote, ParseItems, ParseMembers, ParseNumber, ParseWord;
      var ok := SkipSpace();
      if !ok {
        return Null;
      }
      if memory[data] == '[' {
        Forward();
        if offset > limit {
          return Null;
        }
        doc := Array();
      } else if memory[data] == '{' {
        Forward();
        if offset > limit {
          return Null;
        }
        doc := Hash();
      } else if memory[data] == '"' {
        doc := String();
      } else if IsDigit(memory[data]) {
        doc := Number();
      } else if memory[data] == 't' {
        doc := Word("true", Num(1));
      } else if memory[data] == 'f' {
        doc := Word("false", Num(0));
      } else {
        doc := Null;
      }
    }

    method Array() returns (doc: Doc)
      requires Valid() && offset <= limit
      modifies this
      ensures Valid() && Parsed(doc, offset) == ParseItems(Input(), host, old(offset), [])
      decreases limit + 2 - offset, 1
    {
      hide Parse, Skip, ParseMembers;
      var items: seq<Doc> := [];
      while memory[data] != ']'
        invariant Valid() && old(offset) <= offset <= limit + 1
        invariant ParseItems(Input(), host, offset, items) == ParseItems(Input(), host, old(offset), [])
        decreases limit + 2 - offset, memory[data] != ']'
      {
        var item := Value();
        items := items + [item];
        var ok := SkipSpace();
        if !ok {
          return Null;
        }
        if memory[data] == ',' {
          Forward();
        } else if memory[data] != ']' {
          return Null;
        }
      }
      Forward();
      doc := Arr(items);
    }

    method Hash() returns (doc: Doc)
      requires Valid() && offset <= limit
      modifies this
      ensures Valid() && Parsed(doc, offset) == ParseMembers(Input(), host, old(offset), map[])
      decreases limit + 2 - offset, 2
    {
      hide ParsePair, Skip;
      var fields: map<string, Doc> := map[];
      while memory[data] != '}'
        invariant Valid() && old(offset) <= offset <= limit + 1
        invariant ParseMembers(Input(), host, offset, fields) == ParseMembers(Input(), host, old(offset), map[])
        decreases limit + 2 - offset
      {
        var isPair, key, value := KeyAndValue();
        if !isPair {
          return Null;
        }
        fields := fields[key := value];
        var ok := SkipSpace();
        if !ok {
          return Null;
        }
        if memory[data] == ',' {
          Forward();
        } else if memory[data] != '}' {
          return Null;
        }
      }
      Forward();
      doc := Obj(fields);
    }

    /** The key, the colon and the value in a turn of the object loop. */
    method KeyAndValue() returns (ok: bool, key: string, value: Doc)
      requires Valid() && offset <= limit + 1
      modifies this
      ensures Valid()
      ensures (if ok then Pair(key, value, offset) else NoPair(offset)) == ParsePair(Input(), host, old(offset))
      decreases limit + 2 - offset, 1
    {
      hide Parse, Skip;
      key, value := "", Null;
      var name := Value();
      if !name.Str? {
        return false, key, value;
      }
      ok := SkipSpace();
      if !ok {
        return;
      }
      if memory[data] != ':' {
        return false, key, value;
      }
      Forward();
      key := name.s;
      value := Value();
    }

    method String() returns (doc: Doc)
      requires Valid() && offset <= limit && memory[data] == '"'
      modifies this
      ensures Valid()
      ensures var q := CloseQuote(Input(), old(offset) + 1);
              if q.0 then doc == Str(Input().chars[old(offset) + 1..q.1]) && offset == q.1 + 1
              else doc == Null && offset == q.1
    {
      Forward();
      var from := data;
      var length := 0;
      while memory[data] != '"'
        invariant Valid() && old(offset) + 1 <= offset <= limit + 1 && data == from + length
        invariant CloseQuote(Input(), offset) == CloseQuote(Input(), old(offset) + 1)
        decreases limit + 2 - offset
      {
        Forward();
        if offset > limit {
          return Null;
        }
        length := length + 1;
      }
      Forward();
      doc := Str(memory[from..from + length]);
    }

    method Number() returns (doc: Doc)
      requires Valid() && offset <= limit && IsDigit(memory[data])
      modifies this
      ensures Valid() && Parsed(doc, offset) == ParseNumber(Input(), host, old(offset))
    {
      hide AllDigits, Leading, ParseNumber, DigitsEnd;
      var from := data;
      var length := 0;
      var numstr := host.stack(offset);
      while IsDigit(memory[data])
        invariant Valid() && old(offset) <= offset <= limit && data == from + length
        invariant DigitsEnd(Input(), offset) == DigitsEnd(Input(), old(offset))
        decreases limit + 1 - offset
      {
        DigitHere();
        length := length + 1;
        Forward();
        if offset > limit {
          DigitHere();
          NumberRefused(old(offset));
          return Null;
        }
      }
      DigitHere();
      if length > 11 {
        NumberRefused(old(offset));
        return Null;
      }
      numstr := memory[from..from + length] + numstr[length..];   // strncpy(numstr, start, nlen)
      NumberRead(old(offset), length, numstr);
      doc := Num(host.atoi(numstr));
    }

    lemma DigitHere()
      requires Valid() && offset <= limit + 1
      ensures DigitsEnd(Input(), offset)
           == if offset > limit || !IsDigit(memory[data]) then offset else DigitsEnd(Input(), offset + 1)
    {}

    lemma NumberRefused(o: nat)
      requires Valid() && o <= limit && IsDigit(Input().chars[o]) && DigitsEnd(Input(), o) == offset
      requires offset > limit || offset - o > 11
      ensures ParseNumber(Input(), host, o) == Parsed(Null, offset)
    {}

    /** What strncpy leaves in the buffer. */
    lemma NumberRead(o: nat, length: nat, numstr: string)
      requires Valid() && offset == o + length && offset <= limit && length <= 11 && IsDigit(Input().chars[o])
      requires DigitsEnd(Input(), o) == offset
      requires numstr == memory[start + o..start + offset] + host.stack(o)[length..]
      ensures ParseNumber(Input(), host, o) == Parsed(Num(host.atoi(numstr)), offset)
    {
      hide DigitsEnd, Leading, AllDigits;
      assert memory[start..][o..offset] == memory[start + o..start + offset];
    }

    /** The nested tests for true and false. */
    method Word(word: string, meaning: Doc) returns (doc: Doc)
      requires Valid() && offset <= limit && word != []
      modifies this
      ensures Valid() && Parsed(doc, offset) == ParseWord(Input(), old(offset), word, meaning)
    {
      var i := 0;
      while memory[data] == word[i]
        invariant Valid() && offset <= limit && i < |word|
        invariant ParseWord(Input(), offset, word[i..], meaning) == ParseWord(Input(), old(offset), word, meaning)
        decreases |word| - i
      {
        Forward();
        if i + 1 == |word| {
          return meaning;
        }
        if offset > limit {
          return Null;
        }
        assert word[i..][1..] == word[i + 1..];
        i := i + 1;
      }
      doc := Null;
    }
  }

  class Printer {
    var text: string

    constructor ()
      ensures text == ""
    {
      text := "";
    }

    method Append(s: string)
      modifies this
      ensures text == old(text) + s
    {
      text := text + s;
    }

    /** object_to_json_internal. */
    method Value(v: JsonSpec.Value)
      modifies this
      ensures text == old(text) + Print(v)
      decreases v, 0
    {
      hide PrintItems, PrintMembers, Itoa;
      ghost var before := text;
      match v
      case IntVal(i) => Append(Itoa(i));
      case StrVal(s) => Quoted(s);
      case ArrVal(items) =>
        Append("[");
        Items(items);
        Append("]");
        Joined(before, "[", PrintItems(items), "]");
      case HashVal(members, count) =>
        Append("{");
        Members(members, count);
        Append("}");
        Joined(before, "{", PrintMembers(members, count), "}");
      case GameVal =>
    }

    method Quoted(s: string)
      modifies this
      ensures text == old(text) + ("\"" + s + "\"")
    {
      Append("\"");
      Append(s);
      Append("\"");
    }

    method Items(items: seq<JsonSpec.Value>)
      modifies this
      ensures text == old(text) + PrintItems(items)
      decreases items, 1
    {
      hide Print;
      var i := 0;
      assert items[0..] == items;
      while i < |items|
        invariant i <= |items|
        invariant text + (if i == 0 then PrintItems(items) else PrintMoreItems(items[i..]))
                  == old(text) + PrintItems(items)
      {
        assert items[i..][1..] == items[i + 1..];
        ghost var before, more := text, PrintMoreItems(items[i + 1..]);
        if i != 0 {
          Append(",");
          Joined(before, ",", Print(items[i]), more);
        } else {
          assert before + (Print(items[0]) + more) == before + Print(items[0]) + more;
        }
        Value(items[i]);
        i := i + 1;
      }
    }

    lemma Joined(a: string, b: string, c: string, d: string)
      ensures a + (b + c + d) == a + b + c + d
    {}

    /** The entries of the hash in bucket and chain order, a comma after each but the one with which as many are
        printed as kvp_count says. */
    method Members(members: seq<Member>, kvpCount: int)
      modifies this
      ensures text == old(text) + PrintMembers(members, kvpCount)
      decreases members, 1
    {
      hide PrintMember;
      var count := 0;
      assert members[0..] == members;
      while count < |members|
        invariant count <= |members|
        invariant text + PrintMembers(members[count..], kvpCount - count) == old(text) + PrintMembers(members, kvpCount)
      {
        assert members[count..][1..] == members[count + 1..];
        ghost var before, m, more := text, PrintMember(members[count]),
          PrintMembers(members[count + 1..], kvpCount - count - 1);
        OneMember(members[count]);
        count := count + 1;
        if count != kvpCount {
          Append(",");
          Joined(before, m, ",", more);
        } else {
          Joined(before, m, "", more);
          assert before + m + "" == before + m;
        }
      }
    }

    method OneMember(m: Member)
      modifies this
      ensures text == old(text) + PrintMember(m)
      decreases m, 1
    {
      hide Print;
      ghost var before := text;
      match m.key
      case StrKey(s) =>
        Quoted(s);
        Append(":");
        Value(m.val);
        Joined(before, "\"" + s + "\"", ":", Print(m.val));
      case IntKey(i) =>
        Quoted(Itoa(i));
        Append(":");
        Value(m.val);
        Joined(before, "\"" + Itoa(i) + "\"", ":", Print(m.val));
      case OtherKey =>
    }
  }

  /** A printed value followed by other text, with the limit at the end of the value or one character
      further, is read back if and only if the stack is clean behind its numbers; a number that ends at the
      limit is not. */
  method PrintAndParse(v: Value, trailing: string, further: bool, host: Host) returns (doc: Doc)
    requires Plain(v) && IsAtoi(host.atoi) && |trailing| >= 2 && !IsDigit(trailing[0])
    ensures if v.IntVal? && !further then doc == Null
            else (Clean(host, Numbers(0, v)) ==> doc == Meaning(v))
                 && ((InRange(host, Numbers(0, v)) && DistinctThroughout(v) && doc == Meaning(v))
                     ==> Clean(host, Numbers(0, v)))
  {
    hide *;
    var printer := new Printer();
    printer.Value(v);
    var text := printer.text;
    var limit := if further then |text| else |text| - 1;
    var memory := text + trailing;
    var parser := new Parser(memory, 0, limit, host);
    Placed(memory, text, trailing, limit);
    RoundTrip(Text(memory, limit), host, 0, v);
    doc := parser.Value();
  }

  lemma Placed(memory: string, text: string, trailing: string, limit: int)
    requires memory == text + trailing && limit <= |text| && |trailing| >= 2 && limit >= -1
    ensures memory[0..] == memory && Text(memory, limit).Valid() && At(Text(memory, limit), 0, text)
    ensures memory[0 + |text|] == trailing[0]
  {
    assert memory[0..0 + |text|] == text;
  }
}
