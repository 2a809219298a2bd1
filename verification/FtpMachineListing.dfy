/** Machine listings (sections 7.2 and 7.5 of RFC 3659) as servers print them: what is printed comes
    back, line by line and as the text of a whole reply. */
module FtpMachineListing {
  import opened FtpListing
  import opened FtpTime
  import opened Options
  import opened Texts

  // A key in any letter case.
  predicate Spells(key: string, word: string) {
    |key| == |word| && forall i :: 0 <= i < |word| ==> key[i] == word[i] || key[i] as int + 32 == word[i] as int
  }

  predicate PlainText(s: string) {
    Lacks(s, ';') && Lacks(s, ' ') && Lacks(s, '\n')
  }

  datatype Fact =
    | TypeFact(key: string, value: string)
    | SizeFact(key: string, size: nat)
    | ModifyFact(key: string, text: string, time: int)
    | OtherFact(key: string, value: string)
  {
    ghost predicate Valid(lib: Lib) {
      match this
      case TypeFact(key, value) => Spells(key, "type") && PlainText(value)
      case SizeFact(key, size) => Spells(key, "size") && size < UINT64
      case ModifyFact(key, text, time) => Spells(key, "modify") && PlainText(text) && lib.parseModify(text) == Some(time)
      case OtherFact(key, value) =>
        && key != "" && PlainText(key) && Lacks(key, '=') && PlainText(value)
        && !Spells(key, "type") && !Spells(key, "size") && !Spells(key, "modify")
    }

    function Value(): string {
      match this
      case TypeFact(_, value) => value
      case SizeFact(_, size) => Decimal(size)
      case ModifyFact(_, text, _) => text
      case OtherFact(_, value) => value
    }

    function Text(): string {
      key + "=" + Value()
    }

    // What the fact says about an entry.
    function Said(e: Entry): Entry {
      match this
      case TypeFact(_, value) =>
        if value == "dir" || value == "cdir" || value == "pdir" then e.(kind := FolderType)
        else if value == "file" then e.(kind := FileType)
        else e
      case SizeFact(_, size) => e.(size := size)
      case ModifyFact(_, _, time) => e.(time := Some(time))
      case OtherFact(_, _) => e
    }
  }

  // The facts as printed.
  function FactsText(facts: seq<Fact>): string {
    if facts == [] then "" else FactsText(facts[..|facts| - 1]) + facts[|facts| - 1].key + "=" + facts[|facts| - 1].Value() + ";"
  }

  // The entry the facts describe; later ones win.
  function Described(facts: seq<Fact>, name: string): Entry {
    if facts == [] then Entry(name, "", FileType, 0, None)
    else facts[|facts| - 1].Said(Described(facts[..|facts| - 1], name))
  }

  ghost predicate AllValid(lib: Lib, facts: seq<Fact>) {
    forall i :: 0 <= i < |facts| ==> facts[i].Valid(lib)
  }

  function FactTexts(facts: seq<Fact>): seq<string> {
    if facts == [] then [] else FactTexts(facts[..|facts| - 1]) + [facts[|facts| - 1].Text()]
  }

  lemma LowerSpells(key: string, word: string)
    requires forall i :: 0 <= i < |word| ==> 'a' <= word[i] <= 'z'
    ensures ToLower(key) == word <==> Spells(key, word)
  {
    if Spells(key, word) {
      assert forall i :: 0 <= i < |key| ==> ToLower(key)[i] == word[i];
    }
    if ToLower(key) == word {
      assert forall i :: 0 <= i < |key| ==> Lower(key[i]) == word[i];
    }
  }

  lemma Words()
    ensures forall w :: w in ["type", "size", "modify"] ==> forall i :: 0 <= i < |w| ==> 'a' <= w[i] <= 'z'
  {
    assert forall i :: 0 <= i < 4 ==> 'a' <= "type"[i] <= 'z';
    assert forall i :: 0 <= i < 4 ==> 'a' <= "size"[i] <= 'z';
    assert forall i :: 0 <= i < 6 ==> 'a' <= "modify"[i] <= 'z';
  }

  lemma KeysTold(key: string)
    ensures ToLower(key) == "type" <==> Spells(key, "type")
    ensures ToLower(key) == "size" <==> Spells(key, "size")
    ensures ToLower(key) == "modify" <==> Spells(key, "modify")
  {
    Words();
    hide ToLower, Spells;
    LowerSpells(key, "type");
    LowerSpells(key, "size");
    LowerSpells(key, "modify");
  }

  lemma SpelledPlain(key: string, word: string)
    requires Spells(key, word) && word in ["type", "size", "modify"]
    ensures key != "" && PlainText(key) && Lacks(key, '=')
  {
    Words();
  }

  lemma KeyPlain(lib: Lib, f: Fact)
    requires f.Valid(lib)
    ensures f.key != "" && PlainText(f.key) && Lacks(f.key, '=') && PlainText(f.Value())
  {
    match f
    case TypeFact(key, _) => SpelledPlain(key, "type");
    case SizeFact(key, size) => SpelledPlain(key, "size");
    case ModifyFact(key, _, _) => SpelledPlain(key, "modify");
    case OtherFact(_, _) =>
  }

  lemma FirstEquals(key: string, value: string)
    requires Lacks(key, '=')
    ensures var text := key + "=" + value;
            IndexByte(text, '=') == |key| && text[..|key|] == key && text[|key| + 1..] == value
  {
    hide IndexByte;
    var text := key + "=" + value;
    assert text[|key|] == '=' && forall i :: 0 <= i < |key| ==> text[i] == key[i];
    var k := IndexByte(text, '=');
    assert k >= 0;
    assert forall x :: 0 <= x < k ==> text[..k][x] == text[x];
  }

  lemma OneFact(lib: Lib, f: Fact, e: Entry)
    requires ReadsNumbers(lib) && f.Valid(lib)
    ensures ApplyFact(lib, f.Text(), e) == Ok(f.Said(e))
  {
    KeyPlain(lib, f);
    FirstEquals(f.key, f.Value());
    KeysTold(f.key);
    Distinguished(f.key);
    hide IndexByte, ToLower, Spells, Decimal, ReadsNumbers, PlainText;
    if f.SizeFact? {
      SizeRead(lib, f.size);
    }
  }

  lemma Distinguished(key: string)
    ensures "type" != "size" && "type" != "modify" && "size" != "modify"
  {
    assert "type"[0] != "size"[0] && "type"[0] != "modify"[0] && "size"[0] != "modify"[0];
  }

  lemma {:induction false} FactsApplied(lib: Lib, facts: seq<Fact>, name: string)
    requires ReadsNumbers(lib) && AllValid(lib, facts)
    ensures ApplyFacts(lib, FactTexts(facts), EMPTY_ENTRY.(name := name)) == Ok(Described(facts, name))
  {
    hide ApplyFact, ReadsNumbers, Fact.Valid, Fact.Said, Fact.Text;
    if facts != [] {
      var front, last := facts[..|facts| - 1], facts[|facts| - 1];
      FactsApplied(lib, front, name);
      FactsInParts(lib, FactTexts(front), [last.Text()], EMPTY_ENTRY.(name := name));
      OneFact(lib, last, Described(front, name));
      assert [last.Text()][1..] == [];
    }
  }

  lemma {:induction false} TextsJoin(lib: Lib, facts: seq<Fact>)
    requires AllValid(lib, facts)
    ensures JoinFacts(FactTexts(facts)) == FactsText(facts)
    ensures |FactTexts(facts)| == |facts|
    ensures facts != [] ==> PlainFacts(FactTexts(facts))
  {
    hide Fact.Valid, Fact.Value, Lacks;
    if facts != [] {
      var front, last := facts[..|facts| - 1], facts[|facts| - 1];
      TextsJoin(lib, front);
      PlainFactText(lib, last);
      var texts := FactTexts(facts);
      assert texts[..|texts| - 1] == FactTexts(front);
      assert forall i :: 0 <= i < |texts| - 1 ==> texts[i] == FactTexts(front)[i];
      assert FactsText(front) + (last.key + "=" + last.Value()) + ";" == FactsText(front) + last.key + "=" + last.Value() + ";";
    }
  }

  lemma PlainFactText(lib: Lib, f: Fact)
    requires f.Valid(lib)
    ensures Lacks(f.Text(), ';') && Lacks(f.Text(), ' ') && Lacks(f.Text(), '\n')
  {
    KeyPlain(lib, f);
  }

  // A line of a machine listing, through all parsers in turn.
  lemma MlsdRoundTrip(lib: Lib, facts: seq<Fact>, name: string, now: Now)
    requires ReadsNumbers(lib) && facts != [] && AllValid(lib, facts) && now.Valid()
    ensures ParseListLine(lib, FactsText(facts) + " " + name, now) == Ok(Described(facts, name))
  {
    hide ReadsNumbers, AllValid, PlainFacts, ParseNextRFC3659, ParseLs, ParseDir, ParseHosted, ApplyFacts, FactTexts, FactsText,
         JoinFacts, Described;
    TextsJoin(lib, facts);
    FactsApplied(lib, facts, name);
    FactLineRead(lib, FactTexts(facts), name, EMPTY_ENTRY);
  }

  // The text of a reply that tells about one entry.
  lemma MlstRoundTrip(lib: Lib, facts: seq<Fact>, name: string, first: string, last: string)
    requires ReadsNumbers(lib) && facts != [] && AllValid(lib, facts)
    requires name != "" && Lacks(name, '\n') && Lacks(first, '\n') && Lacks(last, '\n')
    ensures EntryOf(lib, first + "\n" + " " + FactsText(facts) + " " + name + "\n" + last) == Some(Ok(Described(facts, name)))
  {
    hide ReadsNumbers, AllValid, PlainFacts, ParseNextRFC3659, ApplyFacts, FactTexts, FactsText, JoinFacts, Described, EntryOf,
         Lacks;
    TextsJoin(lib, facts);
    FactsApplied(lib, facts, name);
    var texts := FactTexts(facts);
    FactLineRead(lib, texts, name, EMPTY_ENTRY);
    EntryOfReply(lib, [texts], name, first, last);
    OneGroup(texts);
    ThreeLines(first, " " + FactLine(texts, name), last);
    assert [first] + GroupLines([texts], name) + [last] == [first, " " + FactLine(texts, name), last];
    assert first + "\n" + (" " + (FactsText(facts) + " " + name)) + "\n" + last
        == first + "\n" + " " + FactsText(facts) + " " + name + "\n" + last;
  }

  lemma ThreeLines(a: string, b: string, c: string)
    ensures Reply([a, b, c]) == a + "\n" + b + "\n" + c
  {
    assert [a, b, c][1..] == [b, c] && [b, c][1..] == [c];
    assert Reply([b, c]) == b + ['\n'] + c;
    assert a + ['\n'] + (b + ['\n'] + c) == a + "\n" + b + "\n" + c;
  }

  // A fact without a key.
  ghost predicate Keyless(text: string) {
    Lacks(text, '=') || (text != "" && text[0] == '=')
  }

  lemma KeylessDeclined(lib: Lib, text: string, e: Entry)
    requires Keyless(text)
    ensures ApplyFact(lib, text, e) == Unsupported
  {
    assert IndexByte(text, '=') < 1;
  }

  lemma BadValueFails(lib: Lib, key: string, value: string, e: Entry)
    ensures Spells(key, "size") && lib.parseUint(value) == None ==>
              ApplyFact(lib, key + "=" + value, e) == Failed(NumberSyntax)
    ensures Spells(key, "modify") && lib.parseModify(value) == None ==>
              ApplyFact(lib, key + "=" + value, e) == Failed(TimeSyntax)
  {
    KeysTold(key);
    if Spells(key, "size") || Spells(key, "modify") {
      SpelledPlain(key, if Spells(key, "size") then "size" else "modify");
      FirstEquals(key, value);
      Distinguished(key);
    }
    hide IndexByte, ToLower, Spells;
  }

  // The first bad fact decides about the line, whatever follows: without a key the line is not a
  // machine listing at all, with an unreadable value it is a broken one.
  lemma BadFactDecides(lib: Lib, facts: seq<Fact>, bad: string, rest: seq<string>, name: string)
    requires ReadsNumbers(lib) && AllValid(lib, facts) && PlainFacts(FactTexts(facts) + [bad] + rest)
    ensures var r := ParseNextRFC3659(lib, FactLine(FactTexts(facts) + [bad] + rest, name), EMPTY_ENTRY);
            && (Keyless(bad) ==> r == Unsupported)
            && (forall key, value :: bad == key + "=" + value ==>
                  && (Spells(key, "size") && lib.parseUint(value) == None ==> r == Failed(NumberSyntax))
                  && (Spells(key, "modify") && lib.parseModify(value) == None ==> r == Failed(TimeSyntax)))
  {
    hide ReadsNumbers, PlainFacts, ApplyFact, FactTexts, FactLine, ParseNextRFC3659, Spells, Described;
    var texts, e := FactTexts(facts), Described(facts, name);
    FactLineRead(lib, texts + [bad] + rest, name, EMPTY_ENTRY);
    FactsApplied(lib, facts, name);
    assert texts + [bad] + rest == texts + ([bad] + rest);
    FactsInParts(lib, texts, [bad] + rest, EMPTY_ENTRY.(name := name));
    assert ([bad] + rest)[0] == bad;
    if Keyless(bad) {
      KeylessDeclined(lib, bad, e);
    }
    forall key, value | bad == key + "=" + value
      ensures Spells(key, "size") && lib.parseUint(value) == None ==> ApplyFact(lib, bad, e) == Failed(NumberSyntax)
      ensures Spells(key, "modify") && lib.parseModify(value) == None ==> ApplyFact(lib, bad, e) == Failed(TimeSyntax)
    {
      BadValueFails(lib, key, value, e);
    }
  }
}
