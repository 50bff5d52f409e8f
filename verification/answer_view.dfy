/** How the chat front end (app.py) shows a response and what it reads
    aloud: a response that starts with "Agent:" is split at the first
    "Answer:" into the agent's name and the answer, shown under headings,
    and only the answer is spoken; any other response is shown and spoken
    as it is.
 */
module AnswerView {
  import opened Outcomes
  import opened Text
  import opened Supervisor
  import opened GraphOutput

  const AgentTag: string := "Agent:"
  const AnswerTag: string := "Answer:"

  /** What is shown in the chat and what is passed to speech synthesis. */
  datatype View = View(display: string, speech: string)

  /** The displayed form of an agent's answer (U+1F468 U+200D U+2695 U+FE0F
      is the health-worker emoji, U+1F4AC the speech balloon). */
  function Display(agent: string, answer: string): string {
    "\U{1F468}\U{200D}\U{2695}\U{FE0F} **Agent:** " + agent
      + "\n\n\U{1F4AC} **Answer:**\n" + answer
  }

  /** `answer.partition("Answer:")`, then the agent line without any
      "Agent:" and both parts stripped. */
  function SplitAgentAnswer(response: string): (string, string) {
    var parts := Partition(response, AnswerTag);
    (Strip(RemoveAll(parts.0, AgentTag)), Strip(parts.2))
  }

  /** The branch of app.py that formats the response. */
  function Present(response: string): View {
    if StartsWith(response, AgentTag) then
      var split := SplitAgentAnswer(response);
      View(Display(split.0, split.1), split.1)
    else
      View(response, response)
  }

  /** The split is at the first "Answer:"; without one the answer part is
      empty and the whole response is the agent line. */
  lemma SplitAtFirstAnswer(response: string)
    ensures Find(response, AnswerTag).None? ==>
      SplitAgentAnswer(response) == (Strip(RemoveAll(response, AgentTag)), "")
    ensures Find(response, AnswerTag).Some? ==>
      var i := Find(response, AnswerTag).value;
      && (forall j :: 0 <= j < i ==> !StartsWith(response[j..], AnswerTag))
      && SplitAgentAnswer(response)
           == (Strip(RemoveAll(response[..i], AgentTag)), Strip(response[i + |AnswerTag|..]))
  {
    var parts := Partition(response, AnswerTag);
    match Find(response, AnswerTag)
    case None =>
      assert parts == (response, "", "");
    case Some(i) =>
      FindFirst(response, AnswerTag);
      assert parts == (response[..i], AnswerTag, response[i + |AnswerTag|..]);
  }

  /** The characters that separate the formatter's fields are not part of
      either tag, and "Answer:" is too long to occur in "Agent:". */
  lemma TagFacts()
    ensures ' ' !in AnswerTag && '\n' !in AnswerTag
    ensures ' ' !in AgentTag && '\n' !in AgentTag
    ensures !Contains(AgentTag, AnswerTag)
  {
    if Contains(AgentTag, AnswerTag) {
      ContainsNeedsRoom(AgentTag, AnswerTag);
    }
  }

  /** A pattern at the start of `z` is found right after two
      barrier-terminated fields that do not hold it. */
  lemma FindAfterTwoFields(x: string, c1: char, y: string, c2: char, z: string, p: string)
    requires |p| > 0 && c1 !in p && c2 !in p && !Contains(x, p) && !Contains(y, p)
    requires StartsWith(z, p)
    ensures Find(x + [c1] + (y + [c2] + z), p).Some?
    ensures Find(x + [c1] + (y + [c2] + z), p).value == |x| + |y| + 2
  {
    assert Find(z, p) == Some(0);
    FindAfterBarrier(y, c2, z, p);
    FindAfterBarrier(x, c1, y + [c2] + z, p);
  }

  /** The formatter's answer text, cut at its two separating characters. */
  lemma FormattedParts(name: string, content: string)
    ensures Render(Answered(name, content))
      == AgentTag + [' '] + (name + ['\n'] + (AnswerTag + [' '] + content + ['\n']))
  {
    assert "Agent: " == AgentTag + [' '];
    assert "\nAnswer: " == ['\n'] + (AnswerTag + [' ']);
    var x := AgentTag + [' '];
    var z := AnswerTag + [' '];
    assert x + name + (['\n'] + z) + content + ['\n'] == x + (name + ['\n'] + (z + content + ['\n']));
  }

  /** "Answer:" at the head of the answer line is the first one, since
      "Agent:" and the agent's name do not hold it. */
  lemma FindAfterAgentLine(name: string, z: string)
    requires !Contains(name, AnswerTag) && StartsWith(z, AnswerTag)
    ensures Find(AgentTag + [' '] + (name + ['\n'] + z), AnswerTag).Some?
    ensures Find(AgentTag + [' '] + (name + ['\n'] + z), AnswerTag).value == |name| + 8
  {
    TagFacts();
    FindAfterTwoFields(AgentTag, ' ', name, '\n', z, AnswerTag);
  }

  /** Where the formatter's "Answer:" is found in its own output. */
  lemma FindInFormatted(name: string, content: string)
    requires !Contains(name, AnswerTag)
    ensures Find(Render(Answered(name, content)), AnswerTag).Some?
    ensures Find(Render(Answered(name, content)), AnswerTag).value == |name| + 8
  {
    var z := AnswerTag + [' '] + content + ['\n'];
    assert StartsWith(z, AnswerTag) by {
      assert z[..|AnswerTag|] == AnswerTag;
    }
    FindAfterAgentLine(name, z);
    FormattedParts(name, content);
  }

  /** Removing "Agent:" from the agent line leaves the padded name. */
  lemma RemoveTagFromAgentLine(name: string)
    requires !Contains(name, AgentTag)
    ensures RemoveAll("Agent: " + name + "\n", AgentTag) == " " + name + "\n"
  {
    assert "Agent: " + name + "\n" == AgentTag + [' '] + name + ['\n'];
    RemoveHeadBetweenBarriers(AgentTag, ' ', name, '\n');
  }

  /** The formatter's answer text as its agent line followed by its
      answer line. */
  lemma FormattedLines(name: string, content: string)
    ensures Render(Answered(name, content))
      == ("Agent: " + name + "\n") + (AnswerTag + (" " + content + "\n"))
  {
    assert "\nAnswer: " == "\n" + (AnswerTag + " ");
  }

  /** The formatter's text splits into its agent line and the rest of its
      answer line. */
  lemma SplitFormattedLines(name: string, content: string)
    requires !Contains(name, AnswerTag)
    ensures SplitAgentAnswer(Render(Answered(name, content))).0
      == Strip(RemoveAll("Agent: " + name + "\n", AgentTag))
    ensures SplitAgentAnswer(Render(Answered(name, content))).1 == Strip(" " + content + "\n")
  {
    var s := Render(Answered(name, content));
    var line := "Agent: " + name + "\n";
    var tail := " " + content + "\n";
    assert s == line + (AnswerTag + tail) by {
      FormattedLines(name, content);
    }
    assert Find(s, AnswerTag).Some? && Find(s, AnswerTag).value == |line| by {
      FindInFormatted(name, content);
    }
    assert s[..|line|] == line && s[|line| + |AnswerTag|..] == tail by {
      OuterParts(line, AnswerTag, tail);
    }
    SplitAtFirstAnswer(s);
  }

  lemma OuterParts(a: string, b: string, c: string)
    ensures (a + (b + c))[..|a|] == a
    ensures (a + (b + c))[|a| + |b|..] == c
  {
  }

  /** The split recovers the formatter's agent name, provided it is
      stripped and holds neither tag. */
  lemma SplitRecoversAgent(name: string, content: string)
    requires IsStripped(name) && !Contains(name, AgentTag) && !Contains(name, AnswerTag)
    ensures SplitAgentAnswer(Render(Answered(name, content))).0 == name
  {
    var removed := RemoveAll("Agent: " + name + "\n", AgentTag);
    assert removed == " " + name + "\n" by {
      RemoveTagFromAgentLine(name);
    }
    assert Strip(removed) == name by {
      StripPadded(" ", name, "\n");
    }
    SplitFormattedLines(name, content);
  }

  /** The split recovers the formatter's (stripped) answer, whatever the
      answer holds. */
  lemma SplitRecoversAnswer(name: string, content: string)
    requires !Contains(name, AnswerTag) && IsStripped(content)
    ensures SplitAgentAnswer(Render(Answered(name, content))).1 == content
  {
    assert Strip(" " + content + "\n") == content by {
      assert AllSpace(" ") && AllSpace("\n");
      StripPadded(" ", content, "\n");
    }
    SplitFormattedLines(name, content);
  }

  /** Round trip: an agent's answer is shown under its name, and only the
      answer is spoken. */
  lemma PresentFormatted(name: string, content: string)
    requires IsStripped(name) && !Contains(name, AgentTag) && !Contains(name, AnswerTag)
    requires IsStripped(content)
    ensures Present(Render(Answered(name, content))) == View(Display(name, content), content)
  {
    var s := Render(Answered(name, content));
    assert s[..|AgentTag|] == AgentTag;
    SplitRecoversAgent(name, content);
    SplitRecoversAnswer(name, content);
  }

  /** A response without the "Agent:" prefix is shown and spoken as it is. */
  lemma PresentPassesThrough(response: string)
    requires !StartsWith(response, AgentTag)
    ensures Present(response) == View(response, response)
  {
  }

  /** Only an agent's answer carries the "Agent:" prefix: the warnings and
      the invocation error start with an emoji. */
  lemma OnlyAnswersTagged(r: Reply)
    ensures StartsWith(Render(r), AgentTag) <==> r.Answered?
  {
    match r
    case EchoWarning =>
      assert Render(r)[0] == WarningSign[0];
    case EmptyWarning =>
      assert Render(r)[0] == WarningSign[0];
    case InvocationError(d) =>
      assert Render(r)[0] == CrossMark[0];
    case Answered(a, c) =>
      assert Render(r)[..|AgentTag|] == AgentTag;
  }

  /** A name shorter than "Agent:" holds neither tag. */
  lemma ShortNameHoldsNoTag(name: string)
    requires |name| < |AgentTag|
    ensures !Contains(name, AgentTag) && !Contains(name, AnswerTag)
  {
    if Contains(name, AgentTag) { ContainsNeedsRoom(name, AgentTag); }
    if Contains(name, AnswerTag) { ContainsNeedsRoom(name, AnswerTag); }
  }

  /** A name without the letter 'A' holds neither tag. */
  lemma NameWithoutAHoldsNoTag(name: string)
    requires 'A' !in name
    ensures !Contains(name, AgentTag) && !Contains(name, AnswerTag)
  {
    FirstCharAbsent(name, AgentTag);
    FirstCharAbsent(name, AnswerTag);
  }

  /** The names a reply can carry parse back unchanged. */
  lemma AgentNamesParse(name: string)
    requires KnownAgent(name)
    ensures IsStripped(name) && !Contains(name, AgentTag) && !Contains(name, AnswerTag)
  {
    if name == UnknownAgent {
      NameWithoutAHoldsNoTag(name);
    } else {
      var m :| MemberName(m) == name;
      match m
      case WebSearch => NameWithoutAHoldsNoTag(name);
      case _ => ShortNameHoldsNoTag(name);
    }
  }

  /** End to end: whatever the graph does, the front end shows the agent
      and the answer the formatter put in, speaks only the answer, and
      passes every other reply through unchanged. */
  lemma PresentGraphOutput(question: string, thread: State, modelName: string,
                           oracles: Oracles, limitError: string)
    ensures var g := GraphReply(question, thread, modelName, oracles, limitError);
      var out := CustomGraphInvokeOutput(question, thread, modelName, oracles, limitError);
      && (g.Answered? ==> Present(out) == View(Display(g.agent, g.answer), g.answer))
      && (!g.Answered? ==> Present(out) == View(out, out))
  {
    var g := GraphReply(question, thread, modelName, oracles, limitError);
    ReplyShape(question, thread, modelName, oracles, limitError);
    if g.Answered? {
      AgentNamesParse(g.agent);
      PresentFormatted(g.agent, g.answer);
    } else {
      OnlyAnswersTagged(g);
      PresentPassesThrough(CustomGraphInvokeOutput(question, thread, modelName, oracles, limitError));
    }
  }
}
