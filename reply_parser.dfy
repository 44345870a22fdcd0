/** The parsing of the model's reply in `get_nutrition_assist`
    (lib/DL/nutition.py): a reply too short to be useful becomes a fixed error
    plan; otherwise the reply is cut into blank-line-separated sections, each
    section of more than one line is a titled block of content lines, blocks
    whose title mentions "general" are merged into one "General Advice" entry,
    and every other block becomes a diet suggestion under its own title. */
module ReplyParser {
  import PyStr

  /** A `{"title": ..., "content": ...}` dictionary. */
  datatype Entry = Entry(title: string, content: string)

  /** The `diet_plan` dictionary. */
  datatype DietPlan = DietPlan(generalAdvice: seq<Entry>, dietSuggestions: seq<Entry>)

  const ERROR_TITLE: string := "Error"
  const ERROR_CONTENT: string := "Model failed to generate response. Try again later."
  const ERROR_PLAN: DietPlan := DietPlan([Entry(ERROR_TITLE, ERROR_CONTENT)], [])
  const ADVICE_TITLE: string := "General Advice"
  /** Replies whose stripped text is shorter than this are refused. */
  const MIN_REPLY: nat := 20

  /** `line.lstrip("* ").strip()`: a content line without its bullet. */
  function ContentLine(line: string): (r: string)
    ensures |r| <= |line|
    ensures r == [] || (!PyStr.IsSpace(r[0]) && !PyStr.IsSpace(r[|r| - 1]))
  {
    PyStr.Strip(PyStr.LStripChars(line, {'*', ' '}))
  }

  /** A bulleted line loses its bullet and nothing else. */
  lemma BulletRemoved(text: string)
    requires text != [] && text[0] != '*' && !PyStr.IsSpace(text[0]) && !PyStr.IsSpace(text[|text| - 1])
    ensures ContentLine("* " + text) == text
    ensures ContentLine(text) == text
  {
    var bulleted := "* " + text;
    var rest := PyStr.LStripChars(bulleted, {'*', ' '});
    assert bulleted[2..] == text;
    assert rest == text;
    PyStr.StripTrimmed(text);
  }

  /** `[line.lstrip("* ").strip() for line in lines if line.strip()]` */
  function ContentLines(lines: seq<string>): (r: seq<string>)
    ensures |r| <= |lines|
    ensures forall i :: 0 <= i < |r| ==> r[i] == [] || (!PyStr.IsSpace(r[i][0]) && !PyStr.IsSpace(r[i][|r[i]| - 1]))
  {
    if lines == [] then []
    else if PyStr.Strip(lines[0]) != [] then [ContentLine(lines[0])] + ContentLines(lines[1..])
    else ContentLines(lines[1..])
  }

  /** Only blank lines are dropped: with none, every line gives a content line. */
  lemma {:induction false} NoBlankLines(lines: seq<string>)
    requires forall i :: 0 <= i < |lines| ==> PyStr.Strip(lines[i]) != []
    ensures ContentLines(lines) == seq(|lines|, i requires 0 <= i < |lines| => ContentLine(lines[i]))
  {
    if lines != [] {
      NoBlankLines(lines[1..]);
    }
  }

  /** What one section contributes to the plan. */
  datatype Piece = Advice(content: string) | Suggestion(entry: Entry) | Skipped

  /** A title that sends its block to the general advice. */
  predicate IsGeneral(title: string) {
    PyStr.Contains(PyStr.Lower(PyStr.Strip(title)), "general")
  }

  /** The body of the loop over sections: a section is kept only when its
      stripped text spans more than one line; its first line is the title. A
      suggestion's title is never empty, carries no surrounding whitespace and
      does not mention "general". */
  function Classify(section: string): (p: Piece)
    ensures p.Skipped? <==> !PyStr.Contains(PyStr.Strip(section), "\n")
    ensures p.Suggestion? ==>
      var t := p.entry.title;
      && t != [] && !PyStr.IsSpace(t[0]) && !PyStr.IsSpace(t[|t| - 1])
      && !IsGeneral(t)
    ensures !p.Skipped? ==>
      var lines := PyStr.Split(PyStr.Strip(section), "\n");
      var content := PyStr.Join(ContentLines(lines[1..]), "\n");
      && (p.Advice? <==> IsGeneral(lines[0]))
      && (p.Advice? ==> p.content == content)
      && (p.Suggestion? ==> p.entry == Entry(PyStr.Strip(lines[0]), content))
  {
    var text := PyStr.Strip(section);
    var lines := PyStr.Split(text, "\n");
    PyStr.SplitSingle(text, "\n");
    if |lines| <= 1 then Skipped
    else
      var content := PyStr.Join(ContentLines(lines[1..]), "\n");
      if IsGeneral(lines[0]) then Advice(content)
      else
        SuggestionTitle(text);
        Suggestion(Entry(PyStr.Strip(lines[0]), content))
  }

  /** The stripped first line of a text that starts with a non-space character
      is non-empty, carries no surrounding whitespace and strips to itself. */
  lemma SuggestionTitle(text: string)
    requires text != [] && !PyStr.IsSpace(text[0])
    ensures var t := PyStr.Strip(PyStr.Split(text, "\n")[0]);
      && t != [] && !PyStr.IsSpace(t[0]) && !PyStr.IsSpace(t[|t| - 1])
      && PyStr.Strip(t) == t
  {
    var first := PyStr.Split(text, "\n")[0];
    TitleNotBlank(text, first);
    PyStr.StripTrimmed(PyStr.Strip(first));
  }

  /** A single non-blank line gives a single content line. */
  lemma OneContentLine(line: string)
    requires PyStr.Strip(line) != []
    ensures ContentLines([line]) == [ContentLine(line)]
  {
    assert [line][1..] == [];
  }

  /** The first line of a text that starts with a non-space character is not
      blank. */
  lemma TitleNotBlank(text: string, first: string)
    requires text != [] && !PyStr.IsSpace(text[0])
    requires first == PyStr.Split(text, "\n")[0]
    ensures PyStr.Strip(first) != []
  {
    PyStr.SplitFirst(text, "\n");
    assert first[0] == text[0];
  }

  /** The `general_advice` and `diet_suggestions` lists after the loop has
      visited `sections`, in order. Together they never outnumber the sections,
      and every suggestion has a clean, non-general title. */
  function Gather(sections: seq<string>): (r: (seq<string>, seq<Entry>))
    ensures |r.0| + |r.1| <= |sections|
    ensures forall e :: e in r.1 ==> e.title != [] && !IsGeneral(e.title)
  {
    if sections == [] then ([], [])
    else Add(Gather(sections[..|sections| - 1]), Classify(sections[|sections| - 1]))
  }

  /** One iteration's effect on the two lists. */
  function Add(lists: (seq<string>, seq<Entry>), p: Piece): (seq<string>, seq<Entry>) {
    match p
    case Advice(content) => (lists.0 + [content], lists.1)
    case Suggestion(entry) => (lists.0, lists.1 + [entry])
    case Skipped => lists
  }

  lemma GatherPrefix(sections: seq<string>, i: nat)
    requires i < |sections|
    ensures Gather(sections[..i + 1]) == Add(Gather(sections[..i]), Classify(sections[i]))
  {
    assert sections[..i + 1][..i] == sections[..i];
  }

  /** Sections are handled one by one: the lists for a concatenation of replies
      are the concatenations of their lists. */
  lemma {:induction false} GatherAppend(xs: seq<string>, ys: seq<string>)
    ensures Gather(xs + ys).0 == Gather(xs).0 + Gather(ys).0
    ensures Gather(xs + ys).1 == Gather(xs).1 + Gather(ys).1
    decreases |ys|
  {
    if ys == [] {
      assert xs + ys == xs;
    } else {
      var init := ys[..|ys| - 1];
      var last := ys[|ys| - 1];
      assert (xs + ys)[..|xs + ys| - 1] == xs + init;
      assert (xs + ys)[|xs + ys| - 1] == last;
      GatherAppend(xs, init);
      AddAfter(Gather(xs), Gather(xs + init), Gather(init), Classify(last));
    }
  }

  /** Appending a piece commutes with putting earlier lists in front. */
  lemma AddAfter(front: (seq<string>, seq<Entry>), whole: (seq<string>, seq<Entry>), back: (seq<string>, seq<Entry>), p: Piece)
    requires whole.0 == front.0 + back.0 && whole.1 == front.1 + back.1
    ensures Add(whole, p).0 == front.0 + Add(back, p).0
    ensures Add(whole, p).1 == front.1 + Add(back, p).1
  {
  }

  /** The advice dictionary: one merged entry, or none when there is no advice. */
  function MergeAdvice(advice: seq<string>): (r: seq<Entry>)
    ensures |r| <= 1 && (r == [] <==> advice == [])
    ensures r != [] ==> r[0].title == ADVICE_TITLE && PyStr.StartsWith(r[0].content, advice[0])
    ensures |advice| > 0 ==> r == [Entry(ADVICE_TITLE, PyStr.Join(advice, "\n"))]
  {
    if advice == [] then [] else [Entry(ADVICE_TITLE, PyStr.Join(advice, "\n"))]
  }

  /** A reply that is empty or, stripped, shorter than 20 characters. */
  predicate TooShort(text: string) {
    text == [] || |PyStr.Strip(text)| < MIN_REPLY
  }

  /** Steps 5 and 6 of `get_nutrition_assist`: the plan a reply yields. The
      error plan comes exactly from short replies; otherwise at most one entry
      of general advice, titled "General Advice". */
  function Plan(text: string): (plan: DietPlan)
    ensures plan == ERROR_PLAN <==> TooShort(text)
    ensures !TooShort(text) ==>
      |plan.generalAdvice| <= 1 && forall e :: e in plan.generalAdvice ==> e.title == ADVICE_TITLE
    ensures !TooShort(text) ==> forall e :: e in plan.dietSuggestions ==> e.title != [] && !IsGeneral(e.title)
  {
    if TooShort(text) then ERROR_PLAN
    else
      var gathered := Gather(PyStr.Split(text, "\n\n"));
      DietPlan(MergeAdvice(gathered.0), gathered.1)
  }

  /** The loop over sections, appending to `general_advice` and
      `diet_suggestions` as it goes. */
  method ScanSections(sections: seq<string>) returns (generalAdvice: seq<string>, dietSuggestions: seq<Entry>)
    ensures (generalAdvice, dietSuggestions) == Gather(sections)
  {
    generalAdvice, dietSuggestions := [], [];
    for i := 0 to |sections|
      invariant (generalAdvice, dietSuggestions) == Gather(sections[..i])
    {
      GatherPrefix(sections, i);
      var lines := PyStr.Split(PyStr.Strip(sections[i]), "\n");
      if |lines| > 1 {
        var title := PyStr.Lower(PyStr.Strip(lines[0]));
        var content := PyStr.Join(ContentLines(lines[1..]), "\n");
        if PyStr.Contains(title, "general") {
          assert Classify(sections[i]) == Advice(content);
          generalAdvice := generalAdvice + [content];
        } else {
          assert Classify(sections[i]) == Suggestion(Entry(PyStr.Strip(lines[0]), content));
          dietSuggestions := dietSuggestions + [Entry(PyStr.Strip(lines[0]), content)];
        }
      } else {
        assert Classify(sections[i]) == Skipped;
      }
    }
    assert sections[..|sections|] == sections;
  }

  /** The parse as the handler runs it: the length check, the scan over the
      blank-line-separated sections, then the assembly of the plan. */
  method ParseReply(text: string) returns (plan: DietPlan)
    ensures plan == Plan(text)
  {
    if text == [] || |PyStr.Strip(text)| < MIN_REPLY {
      return ERROR_PLAN;
    }
    var generalAdvice, dietSuggestions := ScanSections(PyStr.Split(text, "\n\n"));
    var advice: seq<Entry> := [];
    if generalAdvice != [] {
      advice := advice + [Entry(ADVICE_TITLE, PyStr.Join(generalAdvice, "\n"))];
    }
    plan := DietPlan(advice, dietSuggestions);
  }

  /** A text made of two newline-free lines splits into those lines. */
  lemma SplitLine(a: string, b: string)
    requires '\n' !in a && '\n' !in b
    ensures PyStr.Split(a + "\n" + b, "\n") == [a, b]
  {
    var s := a + "\n" + b;
    assert PyStr.OccursAt(s, "\n", |a|);
    forall j | 0 <= j < |a| ensures !PyStr.OccursAt(s, "\n", j) {
      assert s[j..j + 1] == [a[j]];
    }
    assert PyStr.FindFrom(s, "\n", 0) == |a|;
    assert s[..|a|] == a && s[|a| + 1..] == b;
    PyStr.ContainsChar(b, '\n');
    PyStr.SplitAbsent(b, "\n");
  }

  /** Two newline-free lines joined by one line break hold no blank line. */
  lemma NoBlankLine(a: string, b: string)
    requires '\n' !in a && '\n' !in b
    ensures !PyStr.Contains(a + "\n" + b, "\n\n")
  {
    var s := a + "\n" + b;
    forall j | 0 <= j <= |s| - 2 ensures !PyStr.OccursAt(s, "\n\n", j) {
      assert s[j..j + 2][0] == s[j] && s[j..j + 2][1] == s[j + 1];
      if j < |a| {
        assert s[j] == a[j];
      } else {
        assert s[j + 1] == b[j - |a|];
      }
    }
  }

  /** A blank line ends a section that holds none and does not end in a line
      break. */
  lemma SplitBlankLine(a: string, b: string)
    requires !PyStr.Contains(a, "\n\n") && a != [] && a[|a| - 1] != '\n'
    ensures PyStr.Split(a + "\n\n" + b, "\n\n") == [a] + PyStr.Split(b, "\n\n")
  {
    var s := a + "\n\n" + b;
    assert s[|a|..|a| + 2] == "\n\n";
    assert PyStr.OccursAt(s, "\n\n", |a|);
    forall j | 0 <= j < |a| ensures !PyStr.OccursAt(s, "\n\n", j) {
      if j + 2 <= |a| {
        assert s[j..j + 2] == a[j..j + 2];
        assert !PyStr.OccursAt(a, "\n\n", j);
      } else {
        assert s[j..j + 2][0] == a[|a| - 1];
      }
    }
    assert PyStr.FindFrom(s, "\n\n", 0) == |a|;
    assert s[..|a|] == a && s[|a| + 2..] == b;
  }

  /** A block titled "General Advice" is general advice. */
  lemma GeneralTitle()
    ensures IsGeneral("General Advice")
  {
    var t := "General Advice";
    PyStr.StripTrimmed(t);
    assert PyStr.Lower(t)[..7] == "general";
    assert PyStr.OccursAt(PyStr.Lower(t), "general", 0);
  }

  /** A block titled "Breakfast" is a suggestion. */
  lemma BreakfastTitle()
    ensures !IsGeneral("Breakfast")
  {
    var t := "Breakfast";
    PyStr.StripTrimmed(t);
    PyStr.LowerAvoids(t, 'g');
    PyStr.MissingHead(PyStr.Lower(t), "general");
  }

  /** A single line of text with no surrounding whitespace. */
  predicate Trimmed(s: string) {
    s != [] && '\n' !in s && !PyStr.IsSpace(s[0]) && !PyStr.IsSpace(s[|s| - 1])
  }

  /** A block of a title line and one bulleted line is general advice or a
      suggestion under that title, by its title alone, and its content is the
      bullet's text. */
  lemma OneBulletBlock(title: string, item: string)
    requires Trimmed(title) && Trimmed(item) && item[0] != '*'
    ensures Classify(title + "\n* " + item) ==
      if IsGeneral(title) then Advice(item) else Suggestion(Entry(title, item))
  {
    var bullet := "* " + item;
    var section := title + "\n" + bullet;
    assert title + "\n* " + item == section;
    assert section[0] == title[0] && section[|section| - 1] == item[|item| - 1];
    PyStr.StripTrimmed(section);
    assert '\n' !in bullet;
    SplitLine(title, bullet);
    PyStr.StripTrimmed(title);
    assert bullet[0] == '*' && bullet[|bullet| - 1] == item[|item| - 1];
    PyStr.StripTrimmed(bullet);
    OneContentLine(bullet);
    BulletRemoved(item);
    assert PyStr.Split(section, "\n")[1..] == [bullet];
  }

  /** Two one-bullet blocks separated by a blank line are two sections. */
  lemma TwoBlockSections(advice: string, tip: string, title: string, item: string)
    requires Trimmed(advice) && Trimmed(tip) && Trimmed(title) && Trimmed(item)
    ensures var text := advice + "\n* " + tip + "\n\n" + title + "\n* " + item;
      && PyStr.Split(text, "\n\n") == [advice + "\n* " + tip, title + "\n* " + item]
      && PyStr.Strip(text) == text
  {
    var first := advice + "\n* " + tip;
    var second := title + "\n* " + item;
    var text := advice + "\n* " + tip + "\n\n" + title + "\n* " + item;
    assert text == first + "\n\n" + second;
    assert first == advice + "\n" + ("* " + tip) && '\n' !in "* " + tip;
    assert second == title + "\n" + ("* " + item) && '\n' !in "* " + item;
    NoBlankLine(advice, "* " + tip);
    NoBlankLine(title, "* " + item);
    assert first[|first| - 1] == tip[|tip| - 1];
    SplitBlankLine(first, second);
    PyStr.SplitAbsent(second, "\n\n");
    assert text[0] == advice[0] && text[|text| - 1] == item[|item| - 1];
    PyStr.StripTrimmed(text);
  }

  /** A reply made of a general-advice block followed by a suggestion block,
      each with one bullet, parses into one merged advice entry and one
      suggestion, in that order. */
  lemma TwoBlockReply(advice: string, tip: string, title: string, item: string)
    requires Trimmed(advice) && Trimmed(tip) && tip[0] != '*' && IsGeneral(advice)
    requires Trimmed(title) && Trimmed(item) && item[0] != '*' && !IsGeneral(title)
    requires |advice| + |tip| + |title| + |item| >= 12
    ensures Plan(advice + "\n* " + tip + "\n\n" + title + "\n* " + item)
      == DietPlan([Entry(ADVICE_TITLE, tip)], [Entry(title, item)])
  {
    TwoBlockSections(advice, tip, title, item);
    OneBulletBlock(advice, tip);
    OneBulletBlock(title, item);
    GatherTwo(advice + "\n* " + tip, title + "\n* " + item);
  }

  /** The lists for two sections: the first section's piece, then the
      second's. */
  lemma GatherTwo(a: string, b: string)
    ensures Gather([a, b]) == Add(Add(([], []), Classify(a)), Classify(b))
  {
    assert [a, b][..1] == [a] && [a][..0] == [];
  }

  /** The lines of the sample reply are single trimmed lines. */
  lemma SampleLines()
    ensures Trimmed("General Advice") && Trimmed("Eat greens") && Trimmed("Breakfast") && Trimmed("Oats")
  {
  }

  /** The reply "General Advice / * Eat greens", blank line, "Breakfast /
      * Oats" gives the advice "Eat greens" and a "Breakfast" suggestion
      "Oats". */
  lemma SampleReply()
    ensures Plan("General Advice\n* Eat greens\n\nBreakfast\n* Oats")
      == DietPlan([Entry("General Advice", "Eat greens")], [Entry("Breakfast", "Oats")])
  {
    GeneralTitle();
    BreakfastTitle();
    SampleLines();
    var text := "General Advice" + "\n* " + "Eat greens" + "\n\n" + "Breakfast" + "\n* " + "Oats";
    assert text == "General Advice\n* Eat greens\n\nBreakfast\n* Oats";
    TwoBlockReply("General Advice", "Eat greens", "Breakfast", "Oats");
  }
}
