/**
 * The canned driving-instructor chat (AIChatScreen.kt): a reply chosen by the first keyword group
 * occurring in the lower-cased message, and the screen state the send button updates. Lower-casing
 * is that of the ASCII letters; blankness is the JVM's.
 */
module AIChat {

  const Greeting: string :=
    "Hello! I'm your AI driving instructor. Ask me anything about traffic rules, road signs, or driving techniques!"

  const SpeedLimitReply: string :=
    "Speed limits vary by area: 50 km/h in residential areas, 80-100 km/h on highways. Always check local signs as they may override general limits."
  const StopSignReply: string :=
    "At a stop sign, you must come to a complete stop, check for traffic and pedestrians, then proceed when safe. Rolling stops are illegal."
  const RightOfWayReply: string :=
    "Right of way rules: yield to traffic already in intersection, vehicles on your right at 4-way stops, pedestrians in crosswalks, and emergency vehicles."
  const ParkingReply: string :=
    "When parking: stay 5m from fire hydrants, don't block driveways, park in direction of traffic, and always check for parking signs and restrictions."
  const YellowLightReply: string :=
    "Yellow light means prepare to stop if you can do so safely. Only proceed if you're too close to stop safely without hard braking."
  const MergingReply: string :=
    "When merging onto highways: match the speed of traffic, use your signal, check blind spots, and merge when there's a safe gap."
  const BadWeatherReply: string :=
    "In bad weather: reduce speed, increase following distance, use headlights, avoid sudden movements, and pull over if visibility is too poor."
  const FallbackReply: string :=
    "That's a great question! For specific driving rules, I recommend checking your local traffic laws. Remember: always drive defensively, follow speed limits, and stay alert. Is there a specific traffic situation you'd like to know more about?"

  /** The eight replies the assistant can give. */
  const Replies: seq<string> :=
    [SpeedLimitReply, StopSignReply, RightOfWayReply, ParkingReply, YellowLightReply, MergingReply, BadWeatherReply, FallbackReply]

  // ---------------------------------------------------------------------------------------------
  // Text helpers

  /** ASCII lower-casing of one character. */
  function LowerChar(c: char): char {
    if 'A' <= c <= 'Z' then (c as int + 32) as char else c
  }

  /** `lowercase()`, character by character. */
  function Lowercase(s: string): (r: string)
    ensures |r| == |s|
    ensures forall i :: 0 <= i < |s| ==> r[i] == LowerChar(s[i])
  {
    seq(|s|, i requires 0 <= i < |s| => LowerChar(s[i]))
  }

  /** `t` occurs in `s` starting at position `i`. */
  predicate OccursAt(s: string, t: string, i: int) {
    0 <= i <= |s| - |t| && s[i..i + |t|] == t
  }

  /** `contains(t)`: `t` occurs in `s` at some position. */
  function Contains(s: string, t: string): (r: bool)
    ensures r <==> exists i :: OccursAt(s, t, i)
    decreases |s|
  {
    if |t| > |s| then false
    else if s[..|t|] == t then
      assert OccursAt(s, t, 0);
      true
    else
      var r := Contains(s[1..], t);
      assert r ==> exists i :: OccursAt(s, t, i) by {
        if r {
          var i :| OccursAt(s[1..], t, i);
          assert s[i + 1..i + 1 + |t|] == s[1..][i..i + |t|];
          assert OccursAt(s, t, i + 1);
        }
      }
      assert (exists i :: OccursAt(s, t, i)) ==> r by {
        if exists i :: OccursAt(s, t, i) {
          var i :| OccursAt(s, t, i);
          assert i != 0;
          assert s[1..][i - 1..i - 1 + |t|] == s[i..i + |t|];
          assert OccursAt(s[1..], t, i - 1);
        }
      }
      r
  }

  // ---------------------------------------------------------------------------------------------
  // The reply

  /** `getAIResponse`: the message is lower-cased once, then the `when` chain picks the reply. */
  function GetAIResponse(userMessage: string): (r: string)
    ensures r in Replies
  {
    ReplyToLowered(Lowercase(userMessage))
  }

  /**
   * The `when` chain of `getAIResponse` on the lower-cased message: the reply of the first keyword
   * group that occurs, in the fixed order speed limit, stop sign, right of way, parking, yellow
   * light, merge or highway, rain or weather; the fallback when none occurs.
   */
  function ReplyToLowered(lowerMessage: string): (r: string)
    ensures r in Replies
  {
    if Contains(lowerMessage, "speed limit") then SpeedLimitReply
    else if Contains(lowerMessage, "stop sign") then StopSignReply
    else if Contains(lowerMessage, "right of way") then RightOfWayReply
    else if Contains(lowerMessage, "parking") then ParkingReply
    else if Contains(lowerMessage, "yellow light") then YellowLightReply
    else if Contains(lowerMessage, "merge") || Contains(lowerMessage, "highway") then MergingReply
    else if Contains(lowerMessage, "rain") || Contains(lowerMessage, "weather") then BadWeatherReply
    else FallbackReply
  }

  /** A keyword group and its reply: the group fires when any of its keywords occurs. */
  datatype Rule = Rule(keywords: seq<string>, reply: string)

  /** The keyword table in the order the reply tests it. */
  const Rules: seq<Rule> := [
    Rule(["speed limit"], SpeedLimitReply),
    Rule(["stop sign"], StopSignReply),
    Rule(["right of way"], RightOfWayReply),
    Rule(["parking"], ParkingReply),
    Rule(["yellow light"], YellowLightReply),
    Rule(["merge", "highway"], MergingReply),
    Rule(["rain", "weather"], BadWeatherReply)
  ]

  predicate Fires(rule: Rule, text: string) {
    exists j :: 0 <= j < |rule.keywords| && Contains(text, rule.keywords[j])
  }

  /**
   * Reference reading of a keyword table from rule `from` on: the reply of the first rule that
   * fires, else `fallback`.
   */
  function FirstMatch(rules: seq<Rule>, fallback: string, text: string, from: nat): string
    decreases |rules| - from
  {
    if from >= |rules| then fallback
    else if Fires(rules[from], text) then rules[from].reply
    else FirstMatch(rules, fallback, text, from + 1)
  }

  lemma FiresOne(rule: Rule, text: string)
    requires |rule.keywords| == 1
    ensures Fires(rule, text) <==> Contains(text, rule.keywords[0])
  {
  }

  lemma FiresEither(rule: Rule, text: string)
    requires |rule.keywords| == 2
    ensures Fires(rule, text) <==> Contains(text, rule.keywords[0]) || Contains(text, rule.keywords[1])
  {
  }

  /** The reply is the table's first match on the lower-cased message. */
  lemma ResponseFollowsTable(userMessage: string)
    ensures GetAIResponse(userMessage) == FirstMatch(Rules, FallbackReply, Lowercase(userMessage), 0)
  {
    var l := Lowercase(userMessage);
    FiresOne(Rules[0], l);
    FiresOne(Rules[1], l);
    FiresOne(Rules[2], l);
    FiresOne(Rules[3], l);
    FiresOne(Rules[4], l);
    FiresEither(Rules[5], l);
    FiresEither(Rules[6], l);
    assert FirstMatch(Rules, FallbackReply, l, 7) == FallbackReply;
    assert FirstMatch(Rules, FallbackReply, l, 6) == if Contains(l, "rain") || Contains(l, "weather") then BadWeatherReply else FallbackReply;
    assert FirstMatch(Rules, FallbackReply, l, 5) == if Contains(l, "merge") || Contains(l, "highway") then MergingReply else FirstMatch(Rules, FallbackReply, l, 6);
    assert FirstMatch(Rules, FallbackReply, l, 4) == if Contains(l, "yellow light") then YellowLightReply else FirstMatch(Rules, FallbackReply, l, 5);
    assert FirstMatch(Rules, FallbackReply, l, 3) == if Contains(l, "parking") then ParkingReply else FirstMatch(Rules, FallbackReply, l, 4);
    assert FirstMatch(Rules, FallbackReply, l, 2) == if Contains(l, "right of way") then RightOfWayReply else FirstMatch(Rules, FallbackReply, l, 3);
    assert FirstMatch(Rules, FallbackReply, l, 1) == if Contains(l, "stop sign") then StopSignReply else FirstMatch(Rules, FallbackReply, l, 2);
  }

  /** In any table the first rule that fires decides the reply, whatever later rules would say. */
  lemma {:induction false} FirstFiringRuleWins(rules: seq<Rule>, fallback: string, text: string, from: nat, k: nat)
    requires from <= k < |rules| && Fires(rules[k], text)
    requires forall j :: from <= j < k ==> !Fires(rules[j], text)
    ensures FirstMatch(rules, fallback, text, from) == rules[k].reply
    decreases k - from
  {
    if from < k {
      FirstFiringRuleWins(rules, fallback, text, from + 1, k);
    }
  }

  /** In any table, when no rule fires the reply is the fallback. */
  lemma {:induction false} NoFiringRuleFallsBack(rules: seq<Rule>, fallback: string, text: string, from: nat)
    requires forall j :: from <= j < |rules| ==> !Fires(rules[j], text)
    ensures FirstMatch(rules, fallback, text, from) == fallback
    decreases |rules| - from
  {
    if from < |rules| {
      NoFiringRuleFallsBack(rules, fallback, text, from + 1);
    }
  }

  /** In any table, the reply is the fallback or the reply of a rule that fires after none before it did. */
  lemma {:induction false} FirstMatchIsFirstFiring(rules: seq<Rule>, fallback: string, text: string, from: nat)
    ensures || FirstMatch(rules, fallback, text, from) == fallback
            || exists k :: && from <= k < |rules| && Fires(rules[k], text)
                           && FirstMatch(rules, fallback, text, from) == rules[k].reply
                           && forall j :: from <= j < k ==> !Fires(rules[j], text)
    decreases |rules| - from
  {
    if from < |rules| && !Fires(rules[from], text) {
      FirstMatchIsFirstFiring(rules, fallback, text, from + 1);
    }
  }

  /** When no reply of the table is the fallback, a firing rule rules the fallback out. */
  lemma {:induction false} FiringRuleAvoidsFallback(rules: seq<Rule>, fallback: string, text: string, from: nat, k: nat)
    requires from <= k < |rules| && Fires(rules[k], text)
    requires forall i :: 0 <= i < |rules| ==> rules[i].reply != fallback
    ensures FirstMatch(rules, fallback, text, from) != fallback
    decreases k - from
  {
    if from < k && !Fires(rules[from], text) {
      FiringRuleAvoidsFallback(rules, fallback, text, from + 1, k);
    }
  }

  /** The eight replies are pairwise different texts (their lengths already differ). */
  lemma RepliesDistinct()
    ensures |Rules| == 7 && |Replies| == 8
    ensures forall i, j :: 0 <= i < j < |Replies| ==> Replies[i] != Replies[j]
    ensures forall k :: 0 <= k < |Rules| ==> Rules[k].reply == Replies[k]
  {
    assert |SpeedLimitReply| == 143 && |StopSignReply| == 135 && |RightOfWayReply| == 151;
    assert |ParkingReply| == 147 && |YellowLightReply| == 129 && |MergingReply| == 126;
    assert |BadWeatherReply| == 139 && |FallbackReply| == 240;
  }

  /**
   * The reply is rule `k`'s exactly when rule `k` fires on the lower-cased message and no earlier
   * rule does: keywords are checked in order and the first match wins.
   */
  lemma ReplyIsRuleIff(userMessage: string, k: nat)
    requires k < |Rules|
    ensures GetAIResponse(userMessage) == Rules[k].reply
        <==> Fires(Rules[k], Lowercase(userMessage)) && forall j :: 0 <= j < k ==> !Fires(Rules[j], Lowercase(userMessage))
  {
    var l := Lowercase(userMessage);
    ResponseFollowsTable(userMessage);
    RuleRepliesDistinct();
    RulesAvoidFallback();
    if Fires(Rules[k], l) && forall j :: 0 <= j < k ==> !Fires(Rules[j], l) {
      FirstFiringRuleWins(Rules, FallbackReply, l, 0, k);
    } else {
      FirstMatchIsFirstFiring(Rules, FallbackReply, l, 0);
      if FirstMatch(Rules, FallbackReply, l, 0) != FallbackReply {
        var k' :| && 0 <= k' < |Rules| && Fires(Rules[k'], l)
                  && FirstMatch(Rules, FallbackReply, l, 0) == Rules[k'].reply
                  && forall j :: 0 <= j < k' ==> !Fires(Rules[j], l);
        assert k' != k;
      }
    }
  }

  /** No keyword group answers with the fallback text. */
  lemma RulesAvoidFallback()
    ensures forall k :: 0 <= k < |Rules| ==> Rules[k].reply != FallbackReply
  {
    RepliesDistinct();
  }

  /** Different keyword groups answer with different texts. */
  lemma RuleRepliesDistinct()
    ensures forall i, j :: 0 <= i < j < |Rules| ==> Rules[i].reply != Rules[j].reply
  {
    RepliesDistinct();
  }

  /** The fallback is given exactly when no keyword of any group occurs in the lower-cased message. */
  lemma FallbackIff(userMessage: string)
    ensures GetAIResponse(userMessage) == FallbackReply
        <==> forall k :: 0 <= k < |Rules| ==> !Fires(Rules[k], Lowercase(userMessage))
  {
    var l := Lowercase(userMessage);
    ResponseFollowsTable(userMessage);
    RulesAvoidFallback();
    if forall k :: 0 <= k < |Rules| ==> !Fires(Rules[k], l) {
      NoFiringRuleFallsBack(Rules, FallbackReply, l, 0);
    } else {
      var k :| 0 <= k < |Rules| && Fires(Rules[k], l);
      FiringRuleAvoidsFallback(Rules, FallbackReply, l, 0, k);
    }
  }

  /** Messages that differ only in the case of ASCII letters get the same reply. */
  lemma CaseInsensitive(a: string, b: string)
    requires |a| == |b| && forall i :: 0 <= i < |a| ==> LowerChar(a[i]) == LowerChar(b[i])
    ensures GetAIResponse(a) == GetAIResponse(b)
  {
    var la, lb := Lowercase(a), Lowercase(b);
    assert la == lb by {
      forall i | 0 <= i < |la|
        ensures la[i] == lb[i]
      {
      }
    }
  }

  /** Keyword order decides between groups: once "speed limit" occurs, a mention of parking does not matter. */
  lemma EarlierGroupWins(userMessage: string)
    requires Contains(Lowercase(userMessage), "speed limit")
    ensures GetAIResponse(userMessage) == SpeedLimitReply
    ensures GetAIResponse(userMessage) != ParkingReply
  {
    RepliesDistinct();
  }

  /**
   * Two keywords share a reply in two groups: once no earlier group fires, "merge" and "highway"
   * both get the merging advice, and "rain" and "weather" both get the bad-weather advice.
   */
  lemma SharedReplies(userMessage: string)
    ensures var l := Lowercase(userMessage);
            (forall j :: 0 <= j < 5 ==> !Fires(Rules[j], l)) && (Contains(l, "merge") || Contains(l, "highway"))
            ==> GetAIResponse(userMessage) == MergingReply
    ensures var l := Lowercase(userMessage);
            (forall j :: 0 <= j < 6 ==> !Fires(Rules[j], l)) && (Contains(l, "rain") || Contains(l, "weather"))
            ==> GetAIResponse(userMessage) == BadWeatherReply
  {
    var l := Lowercase(userMessage);
    FiresEither(Rules[5], l);
    FiresEither(Rules[6], l);
    ReplyIsRuleIff(userMessage, 5);
    ReplyIsRuleIff(userMessage, 6);
  }

  // ---------------------------------------------------------------------------------------------
  // The chat screen

  /** One bubble of the conversation. */
  datatype ChatMessage = ChatMessage(text: string, isFromUser: bool)

  /**
   * `Char.isWhitespace()` on the JVM: the Unicode space, line and paragraph separators together
   * with the controls tab, line feed, vertical tab, form feed, carriage return and the four
   * information separators. Space, tab and the line breaks are whitespace; no ASCII letter or
   * digit is.
   */
  predicate IsWhitespace(c: char)
    ensures c == ' ' || c == '\t' || c == '\n' || c == '\r' ==> IsWhitespace(c)
    ensures IsAsciiLetterOrDigit(c) ==> !IsWhitespace(c)
  {
    var n := c as int;
    || 0x09 <= n <= 0x0D
    || 0x1C <= n <= 0x20
    || n == 0xA0 || n == 0x1680
    || 0x2000 <= n <= 0x200A
    || n == 0x2028 || n == 0x2029 || n == 0x202F || n == 0x205F || n == 0x3000
  }

  predicate IsAsciiLetterOrDigit(c: char) {
    'a' <= c <= 'z' || 'A' <= c <= 'Z' || '0' <= c <= '9'
  }

  /**
   * `isNotBlank()`: some character is not whitespace. The empty text is blank; a text holding an
   * ASCII letter or digit is not.
   */
  predicate IsNotBlank(s: string)
    ensures |s| == 0 ==> !IsNotBlank(s)
    ensures (exists i :: 0 <= i < |s| && IsAsciiLetterOrDigit(s[i])) ==> IsNotBlank(s)
  {
    exists i :: 0 <= i < |s| && !IsWhitespace(s[i])
  }

  /** The greeting bubble the screen adds when it is first shown. */
  const GreetingMessage: ChatMessage := ChatMessage(Greeting, false)

  /** What one send of the non-blank `text` adds: the user's bubble, then the assistant's reply. */
  function Exchange(text: string): (r: seq<ChatMessage>)
    ensures |r| == 2 && r[0].isFromUser && !r[1].isFromUser && r[0].text == text
    ensures r[1].text == GetAIResponse(text) && r[1].text in Replies
  {
    [ChatMessage(text, true), ChatMessage(GetAIResponse(text), false)]
  }

  /**
   * A conversation built from greetings and exchanges, in any order: each exchange is a user
   * bubble with non-blank text followed by the bubble `reply` gives for that text.
   */
  ghost predicate Conversation(ms: seq<ChatMessage>, greeting: ChatMessage, reply: string -> string)
    decreases |ms|
  {
    var n := |ms|;
    || n == 0
    || (ms[n - 1] == greeting && Conversation(ms[..n - 1], greeting, reply))
    || (&& n >= 2 && ms[n - 2].isFromUser && IsNotBlank(ms[n - 2].text)
        && ms[n - 1] == ChatMessage(reply(ms[n - 2].text), false)
        && Conversation(ms[..n - 2], greeting, reply))
  }

  /** The conversations the chat screen can show: its greeting and the replies of `getAIResponse`. */
  ghost predicate Transcript(ms: seq<ChatMessage>) {
    Conversation(ms, GreetingMessage, GetAIResponse)
  }

  /** In a conversation every user bubble is non-blank and is followed at once by the reply to exactly its text. */
  lemma {:induction false} UserBubblesAnswered(ms: seq<ChatMessage>, greeting: ChatMessage, reply: string -> string, i: nat)
    requires Conversation(ms, greeting, reply) && !greeting.isFromUser && i < |ms| && ms[i].isFromUser
    ensures IsNotBlank(ms[i].text)
    ensures i + 1 < |ms| && ms[i + 1] == ChatMessage(reply(ms[i].text), false)
    decreases |ms|
  {
    var n := |ms|;
    if n >= 2 && ms[n - 2].isFromUser && IsNotBlank(ms[n - 2].text)
       && ms[n - 1] == ChatMessage(reply(ms[n - 2].text), false) && Conversation(ms[..n - 2], greeting, reply)
    {
      if i < n - 2 {
        UserBubblesAnswered(ms[..n - 2], greeting, reply, i);
      }
    } else {
      UserBubblesAnswered(ms[..n - 1], greeting, reply, i);
    }
  }

  /** In a conversation every non-user bubble is the greeting or the reply to the user bubble before it. */
  lemma {:induction false} OtherBubblesAnswer(ms: seq<ChatMessage>, greeting: ChatMessage, reply: string -> string, i: nat)
    requires Conversation(ms, greeting, reply) && i < |ms| && !ms[i].isFromUser
    ensures || ms[i] == greeting
            || (i > 0 && ms[i - 1].isFromUser && ms[i].text == reply(ms[i - 1].text))
    decreases |ms|
  {
    var n := |ms|;
    if n >= 2 && ms[n - 2].isFromUser && IsNotBlank(ms[n - 2].text)
       && ms[n - 1] == ChatMessage(reply(ms[n - 2].text), false) && Conversation(ms[..n - 2], greeting, reply)
    {
      if i < n - 2 {
        OtherBubblesAnswer(ms[..n - 2], greeting, reply, i);
      }
    } else if i < n - 1 {
      OtherBubblesAnswer(ms[..n - 1], greeting, reply, i);
    }
  }

  /**
   * On the chat screen every user bubble holds a non-blank message and is followed at once by the
   * assistant's answer to exactly that message.
   */
  lemma UserMessagesAreAnswered(ms: seq<ChatMessage>, i: nat)
    requires Transcript(ms) && i < |ms| && ms[i].isFromUser
    ensures IsNotBlank(ms[i].text)
    ensures i + 1 < |ms| && ms[i + 1] == ChatMessage(GetAIResponse(ms[i].text), false)
  {
    UserBubblesAnswered(ms, GreetingMessage, GetAIResponse, i);
  }

  /** On the chat screen every assistant bubble is the greeting or the answer to the user bubble before it. */
  lemma AssistantMessagesAnswer(ms: seq<ChatMessage>, i: nat)
    requires Transcript(ms) && i < |ms| && !ms[i].isFromUser
    ensures || ms[i] == GreetingMessage
            || (i > 0 && ms[i - 1].isFromUser && ms[i].text == GetAIResponse(ms[i - 1].text))
  {
    OtherBubblesAnswer(ms, GreetingMessage, GetAIResponse, i);
  }

  /** The text field and the list of bubbles of `AIChatScreen`. */
  class ChatScreen {
    var messageText: string
    var messages: seq<ChatMessage>

    ghost predicate Valid()
      reads this
    {
      Transcript(messages)
    }

    /** `remember { mutableStateOf("") }` and `remember { mutableStateListOf() }`. */
    constructor()
      ensures messageText == "" && messages == []
      ensures Valid()
    {
      messageText := "";
      messages := [];
    }

    /** The launch effect: the greeting is added to the list. */
    method OnLaunch()
      modifies this`messages
      ensures messages == old(messages) + [GreetingMessage]
      ensures old(Valid()) ==> Valid()
    {
      messages := messages + [GreetingMessage];
      assert messages[..|messages| - 1] == old(messages);
    }

    /** `onValueChange`: the field takes the typed text; the list is untouched. */
    method OnValueChange(text: string)
      modifies this`messageText
      ensures messageText == text
    {
      messageText := text;
    }

    /**
     * The send button: a non-blank field adds the user's bubble and then the reply to it, and the
     * field is cleared; a blank field changes nothing.
     */
    method OnSend()
      modifies this
      ensures IsNotBlank(old(messageText)) ==> messages == old(messages) + Exchange(old(messageText)) && messageText == ""
      ensures !IsNotBlank(old(messageText)) ==> messages == old(messages) && messageText == old(messageText)
      ensures old(Valid()) ==> Valid()
    {
      if IsNotBlank(messageText) {
        messages := messages + [ChatMessage(messageText, true)];
        var userMessage := messageText;
        messageText := "";
        messages := messages + [ChatMessage(GetAIResponse(userMessage), false)];
        assert messages[..|messages| - 2] == old(messages);
      }
    }
  }

  /** What a session shows after the greeting when the user submits `inputs` in turn: blank ones add nothing. */
  function Exchanges(inputs: seq<string>): seq<ChatMessage>
  {
    if |inputs| == 0 then []
    else Exchanges(inputs[..|inputs| - 1]) + (if IsNotBlank(inputs[|inputs| - 1]) then Exchange(inputs[|inputs| - 1]) else [])
  }

  lemma ExchangesStep(inputs: seq<string>, k: nat)
    requires k < |inputs|
    ensures Exchanges(inputs[..k + 1]) == Exchanges(inputs[..k]) + (if IsNotBlank(inputs[k]) then Exchange(inputs[k]) else [])
  {
    assert inputs[..k + 1][..k] == inputs[..k];
  }

  /**
   * A session on a fresh screen: it is shown, then each input is typed and sent. The bubbles are the
   * greeting followed by one exchange per non-blank input, and they form a transcript.
   */
  method Converse(inputs: seq<string>) returns (transcript: seq<ChatMessage>)
    ensures transcript == [GreetingMessage] + Exchanges(inputs)
    ensures Transcript(transcript)
    ensures |transcript| <= 1 + 2 * |inputs|
  {
    var screen := new ChatScreen();
    screen.OnLaunch();
    var k := 0;
    while k < |inputs|
      invariant 0 <= k <= |inputs|
      invariant screen.messages == [GreetingMessage] + Exchanges(inputs[..k])
      invariant screen.Valid()
      invariant |screen.messages| <= 1 + 2 * k
    {
      ghost var before := screen.messages;
      screen.OnValueChange(inputs[k]);
      screen.OnSend();
      ExchangesStep(inputs, k);
      ghost var added := if IsNotBlank(inputs[k]) then Exchange(inputs[k]) else [];
      assert screen.messages == before + added;
      assert screen.messages == [GreetingMessage] + (Exchanges(inputs[..k]) + added);
      k := k + 1;
    }
    assert inputs[..k] == inputs;
    transcript := screen.messages;
  }
}
