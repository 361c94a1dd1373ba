/** The transcript handling of `src/Components/VoiceAgent.jsx`: an exit
    word ends the session, a roadmap or brainstorm request names a new map
    after the topic left once the command words are removed, and anything
    else goes to the chat assistant. */
module Voice {
  import opened Wrappers
  import opened Text
  import opened Records

  /** `['stop', 'exit', 'close', 'goodbye', 'cancel'].some(cmd =>
      text.toLowerCase().includes(cmd))`. */
  predicate IsExitCommand(text: string)
  {
    var l := LowerStr(text);
    Contains(l, "stop") || Contains(l, "exit") || Contains(l, "close")
    || Contains(l, "goodbye") || Contains(l, "cancel")
  }

  /** `textLower.includes('roadmap') || textLower.includes('road map')`. */
  predicate IsRoadmap(text: string)
  {
    Contains(LowerStr(text), "roadmap") || Contains(LowerStr(text), "road map")
  }

  /** The test guarding the map branch of `handleVoiceCommand`. */
  predicate IsMapCommand(text: string)
  {
    IsRoadmap(text) || Contains(LowerStr(text), "brainstorm") || Contains(LowerStr(text), "brain storm")
  }

  /** The command phrases, removed anywhere in the text regardless of case. */
  function RemovePhrases(text: string): string
  {
    var t1 := RemoveAllIgnoringCase(text, "roadmap");
    var t2 := RemoveAllIgnoringCase(t1, "road map");
    var t3 := RemoveAllIgnoringCase(t2, "brainstorm");
    var t4 := RemoveAllIgnoringCase(t3, "brain storm");
    RemoveAllIgnoringCase(t4, "create")
  }

  /** The topic as written: after the phrases, every `for` and every letter
      `a` is removed as a substring too, and the rest trimmed. */
  function TopicAsWritten(text: string): string
  {
    var t6 := RemoveAllIgnoringCase(RemovePhrases(text), "for");
    Trim(RemoveAllIgnoringCase(t6, "a"))
  }

  /** Whatever is said, the topic as written contains no letter `a` in either
      case, so "create a roadmap for java" can never be named `java`. */
  lemma TopicAsWrittenLosesLetterA(text: string)
    ensures forall k :: 0 <= k < |TopicAsWritten(text)| ==> Lower(TopicAsWritten(text)[k]) != 'a'
    ensures TopicAsWritten(text) != "java"
  {
    var t6 := RemoveAllIgnoringCase(RemovePhrases(text), "for");
    var t7 := RemoveAllIgnoringCase(t6, "a");
    RemoveLetterLeavesNone(t6, 'a');
    TrimKeepsCharacters(t7);
    var topic := Trim(t7);
    forall k | 0 <= k < |topic| ensures Lower(topic[k]) != 'a' {
      var j :| 0 <= j < |t7| && t7[j] == topic[k];
    }
    assert Lower("java"[1]) == 'a';
  }

  /** The filler words `for` and `a`, compared without regard to case. */
  predicate IsFiller(word: string)
  {
    LowerStr(word) == "for" || LowerStr(word) == "a"
  }

  /** The words of the text left once the phrases are removed, without the
      filler words. */
  function TopicWords(text: string): seq<string>
  {
    Filter(Split(RemovePhrases(text), ' '), (w: string) => !IsFiller(w))
  }

  /** The topic with the filler words removed as whole words only. */
  function Topic(text: string): string
  {
    Trim(Join(TopicWords(text), " "))
  }

  /** Only whole filler words are dropped: every other word of the text
      (after the phrases are removed) is kept, letters `a` included, in its
      place in the order. */
  lemma TopicKeepsWords(text: string)
    ensures forall w :: w in TopicWords(text) <==> w in Split(RemovePhrases(text), ' ') && !IsFiller(w)
    ensures forall w :: w in TopicWords(text) ==> ' ' !in w
    ensures |TopicWords(text)| <= |Split(RemovePhrases(text), ' ')|
  {
    FilterSpec(Split(RemovePhrases(text), ' '), (w: string) => !IsFiller(w));
  }

  /** What one final transcript leads to. */
  datatype VoiceOutcome =
    | Exit
      /** Sent unchanged to the chat assistant. */
    | Chat(text: string)
      /** "Please specify a topic". */
    | AskTopic
      /** A new map with this title; `prompt` is the request sent to the
          assistant to fill it. */
    | CreateMap(title: string, isRoadmap: bool, prompt: string)

  /** `onresult` followed by `handleVoiceCommand`, once the topic has been
      computed from the text. */
  function Dispatch(text: string, topic: string): VoiceOutcome
  {
    if IsExitCommand(text) then Exit
    else if !IsMapCommand(text) then Chat(text)
    else if |topic| < 2 then AskTopic
    else if IsRoadmap(text) then CreateMap("Roadmap: " + topic, true, "roadmap for " + topic)
    else CreateMap("Brainstorm: " + topic, false, "brainstorm " + topic)
  }

  /** An exit word wins over everything else; other text goes to the chat
      unchanged unless it asks for a map; a map request asks for a topic
      exactly when the topic is shorter than two characters, and otherwise
      names a map `Roadmap: <topic>` or `Brainstorm: <topic>` from which the
      topic can be read back, and asks the assistant about that topic. */
  lemma DispatchSpec(text: string, topic: string)
    ensures IsExitCommand(text) <==> Dispatch(text, topic) == Exit
    ensures Dispatch(text, topic).Chat? <==> !IsExitCommand(text) && !IsMapCommand(text)
    ensures Dispatch(text, topic).Chat? ==> Dispatch(text, topic).text == text
    ensures Dispatch(text, topic) == AskTopic <==> !IsExitCommand(text) && IsMapCommand(text) && |topic| < 2
    ensures Dispatch(text, topic).CreateMap? ==>
      |topic| >= 2 && Dispatch(text, topic).isRoadmap == IsRoadmap(text)
      && Dispatch(text, topic).title == (if IsRoadmap(text) then "Roadmap: " else "Brainstorm: ") + topic
      && Dispatch(text, topic).prompt == (if IsRoadmap(text) then "roadmap for " else "brainstorm ") + topic
      && (IsRoadmap(text) ==> ReplaceFirst(Dispatch(text, topic).title, "Roadmap: ", "") == topic)
  {
    if Dispatch(text, topic).CreateMap? && IsRoadmap(text) {
      ReplaceFirstAtStart("Roadmap: ", topic, "");
      assert "" + topic == topic;
    }
  }

  /** The dispatcher as written, on the topic computed by the replace
      chain. */
  function OnResultAsWritten(text: string): VoiceOutcome
  {
    Dispatch(text, TopicAsWritten(text))
  }

  /** As written, a map request asks for a topic exactly when the topic
      left by the replace chain is shorter than two characters, and a map
      title never holds a letter `a` after its prefix: "create a roadmap
      for java" can never name the map `Roadmap: java`. */
  lemma OnResultAsWrittenSpec(text: string)
    ensures IsExitCommand(text) <==> OnResultAsWritten(text) == Exit
    ensures OnResultAsWritten(text).Chat? <==> !IsExitCommand(text) && !IsMapCommand(text)
    ensures OnResultAsWritten(text) == AskTopic <==>
              !IsExitCommand(text) && IsMapCommand(text) && |TopicAsWritten(text)| < 2
    ensures OnResultAsWritten(text).CreateMap? ==>
      var topic := TopicAsWritten(text);
      |topic| >= 2 && !IsSpace(topic[0]) && !IsSpace(topic[|topic| - 1])
      && (forall k :: 0 <= k < |topic| ==> Lower(topic[k]) != 'a')
      && OnResultAsWritten(text).title == (if IsRoadmap(text) then "Roadmap: " else "Brainstorm: ") + topic
      && OnResultAsWritten(text).title != "Roadmap: java"
  {
    DispatchSpec(text, TopicAsWritten(text));
    TopicAsWrittenLosesLetterA(text);
  }

  /** The corrected dispatcher: the same as written, except that the topic
      is `Topic`, which drops `for` and `a` only as whole words. */
  function OnResult(text: string): VoiceOutcome
  {
    Dispatch(text, Topic(text))
  }

  /** The corrected dispatcher's map titles carry the topic with its words
      kept, and without surrounding blanks. */
  lemma OnResultSpec(text: string)
    ensures IsExitCommand(text) <==> OnResult(text) == Exit
    ensures OnResult(text).Chat? <==> !IsExitCommand(text) && !IsMapCommand(text)
    ensures OnResult(text).Chat? ==> OnResult(text).text == text
    ensures OnResult(text) == AskTopic <==> !IsExitCommand(text) && IsMapCommand(text) && |Topic(text)| < 2
    ensures OnResult(text).CreateMap? ==>
      var topic := Topic(text);
      |topic| >= 2 && !IsSpace(topic[0]) && !IsSpace(topic[|topic| - 1])
      && OnResult(text).isRoadmap == IsRoadmap(text)
      && OnResult(text).title == (if IsRoadmap(text) then "Roadmap: " else "Brainstorm: ") + topic
      && (IsRoadmap(text) ==> ReplaceFirst(OnResult(text).title, "Roadmap: ", "") == topic)
  {
    DispatchSpec(text, Topic(text));
  }

  /** Saying an exit word anywhere in a map request ends the session
      instead: "brainstorm a nonstop workout" creates nothing. */
  lemma ExitWinsOverMapRequest(text: string)
    requires IsMapCommand(text) && Contains(LowerStr(text), "stop")
    ensures OnResult(text) == Exit && OnResultAsWritten(text) == Exit
  {
  }
}
