/** Prompt composition of backend/app/services/rag_chat.py: the Amharic
    detector, the recency window over the history, the role labels, and the
    fixed template whose four sections are the instruction with its language
    directive, the retrieved context, the conversation history and the new
    user turn. */
module Prompt {
  import opened Text
  import opened Models

  /** How many of the most recent messages the prompt shows (`history[-10:]`). */
  const HistoryWindow: nat := 10

  /** The template's opening sentence, written as two literals because the
      verifier cannot read the first character of one this long. */
  const Preamble: string := "You are a helpful assistant that answers " + "based on the provided document context. "
  const NotSureInstruction: string := "If the answer is not present in the context, say you are not sure."
  const AmharicDirective: string := "Respond in Amharic. "
  const UserLanguageDirective: string := "Respond in the user's language. "

  /** A code point of the Ethiopic block, U+1200 to U+137F. */
  predicate IsEthiopic(c: char) {
    0x1200 <= c as int <= 0x137F
  }

  /** `is_amharic`: the pattern `[ሀ-፿]` matches somewhere. */
  function IsAmharic(s: string): (b: bool)
    ensures b <==> exists i :: 0 <= i < |s| && IsEthiopic(s[i])
    decreases |s|
  {
    if |s| == 0 then false
    else
      var rest := IsAmharic(s[1..]);
      assert rest ==> exists i :: 0 <= i < |s| && IsEthiopic(s[i]) by {
        if rest {
          var i :| 0 <= i < |s[1..]| && IsEthiopic(s[1..][i]);
          assert s[i + 1] == s[1..][i];
        }
      }
      assert (exists i :: 0 <= i < |s| && IsEthiopic(s[i])) ==> IsEthiopic(s[0]) || rest by {
        if exists i :: 0 <= i < |s| && IsEthiopic(s[i]) {
          var i :| 0 <= i < |s| && IsEthiopic(s[i]);
          if i > 0 {
            assert s[1..][i - 1] == s[i];
          }
        }
      }
      IsEthiopic(s[0]) || rest
  }

  /** The language directive: the Amharic one exactly when the user wrote
      some Ethiopic character, the neutral one otherwise. */
  function Directive(userMessage: string): (d: string)
    ensures d == AmharicDirective <==> IsAmharic(userMessage)
    ensures d == UserLanguageDirective <==> !IsAmharic(userMessage)
  {
    if IsAmharic(userMessage) then AmharicDirective else UserLanguageDirective
  }

  /** One history line, `f"{role}: {msg.content}"`, where the label is
      `User` for role `"user"` and `Assistant` for every other role: the
      line ends with the content, and starts with `User: ` exactly when the
      message is the user's. */
  function RenderLine(m: Message): (line: string)
    ensures |line| >= |m.content| && line[|line| - |m.content|..] == m.content
    ensures m.role == "user" <==> |line| >= 6 && line[..6] == "User: "
  {
    var tag := if m.role == "user" then "User: " else "Assistant: ";
    assert tag[0] != 'U' ==> tag[..6] != "User: ";
    tag + m.content
  }

  function RenderAll(ms: seq<Message>): (lines: seq<string>)
    ensures |lines| == |ms|
    ensures forall i :: 0 <= i < |ms| ==> lines[i] == RenderLine(ms[i])
    decreases |ms|
  {
    if |ms| == 0 then [] else [RenderLine(ms[0])] + RenderAll(ms[1..])
  }

  /** The rendered recency window: one line for each of the last
      `min(10, |history|)` messages, in their given order, and none for the
      earlier ones. */
  function HistoryLines(history: seq<Message>): (lines: seq<string>)
    ensures |lines| == if |history| < HistoryWindow then |history| else HistoryWindow
    ensures forall i :: 0 <= i < |lines| ==>
              lines[i] == RenderLine(history[|history| - |lines| + i])
  {
    var recent := if |history| > HistoryWindow then history[|history| - HistoryWindow..] else history;
    RenderAll(recent)
  }

  /** The last rendered line shows the last message. */
  lemma LastHistoryLine(history: seq<Message>)
    requires |history| > 0
    ensures var lines := HistoryLines(history);
            var m := history[|history| - 1];
            && |lines| > 0
            && (m.role == "user" ==> lines[|lines| - 1] == "User: " + m.content)
            && (m.role != "user" ==> lines[|lines| - 1] == "Assistant: " + m.content)
  {
    var lines := HistoryLines(history);
    var m := history[|history| - 1];
    assert lines[|lines| - 1] == RenderLine(m);
  }

  /** Everything the template holds before the user's own text, in section
      order: instruction with directive, context, history, and the `USER: `
      label. */
  function PromptHead(directive: string, context: string, historyText: string): string {
    Preamble + directive + NotSureInstruction
    + "\n\nCONTEXT:\n" + context
    + "\n\nCONVERSATION HISTORY:\n" + historyText
    + "\n\nUSER: "
  }

  /** The template up to and including the `USER: ` label for this turn. */
  function Head(history: seq<Message>, contextChunks: seq<string>, userMessage: string): string {
    PromptHead(Directive(userMessage), Join(contextChunks, "\n\n"), Join(HistoryLines(history), "\n"))
  }

  /** `build_prompt`: the template, stripped. Stripping removes the
      template's leading and trailing newlines and any trailing whitespace of
      the user's message; when that message is blank, the space after
      `USER:` goes too. */
  function BuildPrompt(history: seq<Message>, contextChunks: seq<string>, userMessage: string)
    : (prompt: string)
    ensures prompt != [] && IsStripped(prompt)
    ensures HasNonSpace(userMessage) ==> prompt == Head(history, contextChunks, userMessage) + TrimRight(userMessage)
    ensures !HasNonSpace(userMessage) ==>
              var head := Head(history, contextChunks, userMessage);
              |head| >= 1 && prompt == head[..|head| - 1]
  {
    var head := Head(history, contextChunks, userMessage);
    PromptHeadShape(Directive(userMessage), Join(contextChunks, "\n\n"), Join(HistoryLines(history), "\n"));
    StripTemplate(head, userMessage)
  }

  /** The template `"\n" + head + userMessage + "\n"`, stripped, for a head
      that starts with a letter and ends in `": "`. */
  function StripTemplate(head: string, userMessage: string): (prompt: string)
    requires |head| >= 2 && head[0] == 'Y'
    requires head[|head| - 2] == ':' && head[|head| - 1] == ' '
    ensures prompt != [] && IsStripped(prompt)
    ensures HasNonSpace(userMessage) ==> prompt == head + TrimRight(userMessage)
    ensures !HasNonSpace(userMessage) ==> prompt == head[..|head| - 1]
  {
    StrippedTemplate(head, userMessage);
    Strip("\n" + head + userMessage + "\n")
  }

  lemma PromptHeadShape(directive: string, context: string, historyText: string)
    ensures var head := PromptHead(directive, context, historyText);
            && |head| >= 2 && head[0] == 'Y'
            && head[|head| - 2] == ':' && head[|head| - 1] == ' '
  {
    var head := PromptHead(directive, context, historyText);
    var front := Preamble + directive + NotSureInstruction
                 + "\n\nCONTEXT:\n" + context
                 + "\n\nCONVERSATION HISTORY:\n" + historyText;
    var tail := "\n\nUSER: ";
    assert head == front + tail;
    assert head[|head| - 2] == tail[6];
    assert Preamble[0] == 'Y';
    assert head[0] == Preamble[0];
  }

  /** What `strip` does to the template around a head that starts with a
      letter and ends in `": "`. */
  lemma StrippedTemplate(head: string, userMessage: string)
    requires |head| >= 2 && head[0] == 'Y'
    requires head[|head| - 2] == ':' && head[|head| - 1] == ' '
    ensures HasNonSpace(userMessage) ==> Strip("\n" + head + userMessage + "\n") == head + TrimRight(userMessage)
    ensures !HasNonSpace(userMessage) ==> Strip("\n" + head + userMessage + "\n") == head[..|head| - 1]
  {
    StrippedTemplateIsTrimmedBody(head, userMessage);
    if HasNonSpace(userMessage) {
      TrimRightAppend(head, userMessage);
    } else {
      TrimRightBlank(head, userMessage);
      TrimRightLabel(head);
    }
  }

  lemma StrippedTemplateIsTrimmedBody(head: string, userMessage: string)
    requires |head| >= 2 && head[0] == 'Y'
    ensures Strip("\n" + head + userMessage + "\n") == TrimRight(head + userMessage)
  {
    var body := head + userMessage;
    var t := "\n" + head + userMessage + "\n";
    assert t == "\n" + body + "\n";
    TrimLeftOfTemplate(body);
    TrimRightSpaceTail(body, '\n');
    StripIsTrims(t);
  }

  lemma TrimLeftOfTemplate(body: string)
    requires |body| > 0 && body[0] == 'Y'
    ensures TrimLeft("\n" + body + "\n") == body + "\n"
  {
    var rest := body + "\n";
    assert "\n" + body + "\n" == "\n" + rest;
    TrimLeftSpaceHead('\n', rest);
    TrimLeftNonSpaceHead(rest);
  }

  lemma TrimRightLabel(head: string)
    requires |head| >= 2 && head[|head| - 2] == ':' && head[|head| - 1] == ' '
    ensures TrimRight(head) == head[..|head| - 1]
  {
    var h := head[..|head| - 1];
    assert IsSpace(head[|head| - 1]);
    assert h[|h| - 1] == ':';
    assert !IsSpace(h[|h| - 1]);
  }
}
