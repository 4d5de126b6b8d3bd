/** The prompt that `askQuestion` sends to the text-generation service: a fixed
    instruction text with the lower-cased style name interpolated into its first
    sentence and, after the fixed guideline list, four interpolation slots, one per
    known style, each holding that style's clause when the selected style equals
    the slot's name (case-sensitively) and the empty string otherwise. */
module Prompt {
  import QuestionStyles

  /** `String.prototype.toLowerCase` on one character, for the ASCII letters. */
  function LowerChar(c: char): char {
    if 'A' <= c <= 'Z' then (c as int + 32) as char else c
  }

  /** `String.prototype.toLowerCase`, character by character. */
  function ToLowerCase(s: string): (r: string)
    ensures |r| == |s|
    ensures forall i :: 0 <= i < |s| ==> r[i] == LowerChar(s[i])
    ensures forall i :: 0 <= i < |s| ==> !('A' <= r[i] <= 'Z')
  {
    if s == [] then [] else [LowerChar(s[0])] + ToLowerCase(s[1..])
  }

  /** Lower-casing twice is lower-casing once. */
  lemma ToLowerCaseIdempotent(s: string)
    ensures ToLowerCase(ToLowerCase(s)) == ToLowerCase(s)
  {
    var once := ToLowerCase(s);
    var twice := ToLowerCase(once);
    assert forall i :: 0 <= i < |s| ==> twice[i] == once[i] by {
      forall i | 0 <= i < |s| ensures twice[i] == once[i] {
        assert twice[i] == LowerChar(once[i]);
      }
    }
  }

  // The texts of the prompt, in the order they appear. Longer texts are written as
  // concatenations of short literals; their values are the source's texts. The split
  // lets the verifier check facts about their characters (no clause text holds a dash)
  // piece by piece, which it does not manage on one long literal.

  const Indent := "\n      "
  const Lead := "Generate a "
  const Trail := " ice-breaker question"
  const Guidelines :=
    " for a team meeting. The question should:\n\n"
    + "- Help the team let loose and shake off any cobwebs before diving into the meeting\n"
    + "- Help teammates get to know each other better on a personal level\n"
    + "- Encourage sharing and connection\n"
    + "- Be engaging and easy to answer\n"
    + "- Avoid being cheesy, we're here to be chill\n"
    + "- Don't make the team \U{1F926}\n"
    + "- Take 1-2 minutes to answer per person\n"
  const Directive := "Please provide just the question " + "without any additional " + "explanation or context."

  // The four style clauses. Each is "- " followed by a text without a dash.
  const FunnyText := "Be humorous " + "but respectful"
  const IntrospectiveText := "Encourage reflection" + " on personal " + "experiences, values," + " or growth"
  const LightHeartedText := "Be fun and casual " + "to create a relaxed " + "atmosphere"
  const ThoughtProvokingText := "Spark interesting " + "discussions and new " + "perspectives"

  const FunnyClause := "- " + FunnyText
  const IntrospectiveClause := "- " + IntrospectiveText
  const LightHeartedClause := "- " + LightHeartedText
  const ThoughtProvokingClause := "- " + ThoughtProvokingText

  /** The intended association of style names with their clauses. */
  const StyleClauses: map<string, string> := map[
    "Funny" := FunnyClause,
    "Introspective" := IntrospectiveClause,
    "Light-hearted" := LightHeartedClause,
    "Thought-provoking" := ThoughtProvokingClause
  ]

  /** One `${selected === name ? clause : ""}` interpolation. */
  function Slot(selected: string, name: string, clause: string): string {
    if selected == name then clause else ""
  }

  /** The four interpolation slots, separated by the template's line breaks. */
  function ClauseBlock(style: string): string {
    Slot(style, "Funny", FunnyClause) + "\n"
    + Slot(style, "Introspective", IntrospectiveClause) + "\n"
    + Slot(style, "Light-hearted", LightHeartedClause) + "\n"
    + Slot(style, "Thought-provoking", ThoughtProvokingClause)
  }

  /** The first sentence of the prompt, up to the style-independent rest. */
  function Headline(style: string): string {
    Lead + ToLowerCase(style) + Trail
  }

  /** The guideline list and the style clauses, up to the closing directive. */
  function Body(style: string): string {
    Guidelines + ClauseBlock(style) + "\n\n"
  }

  /** The whole prompt for the selected style. */
  function BuildPrompt(style: string): string {
    Indent + Headline(style) + Body(style) + Directive
  }

  /** `part` occurs in `text` starting at position `i`. */
  predicate OccursAt(text: string, part: string, i: int) {
    0 <= i <= |text| - |part| && text[i..i + |part|] == part
  }

  /** `part` occurs in `text` as a contiguous piece. */
  ghost predicate Contains(text: string, part: string) {
    exists i :: OccursAt(text, part, i)
  }

  /** `text` ends with `part`. */
  predicate EndsWith(text: string, part: string) {
    |part| <= |text| && text[|text| - |part|..] == part
  }

  /** The prompt opens with the generic instruction naming the lower-cased style and
      ends with the directive to return just the question. */
  lemma PromptFrame(style: string)
    ensures Contains(BuildPrompt(style), Lead + ToLowerCase(style) + Trail)
    ensures EndsWith(BuildPrompt(style), Directive)
  {
    FramedBy(Indent, Headline(style), Body(style), Directive);
  }

  /** In `a + b + c + d`, `b` occurs and `d` ends the text. */
  lemma FramedBy(a: string, b: string, c: string, d: string)
    ensures Contains(a + b + c + d, b)
    ensures EndsWith(a + b + c + d, d)
  {
    var t := a + b + c + d;
    assert t[|a|..|a| + |b|] == b;
    assert OccursAt(t, b, |a|);
    assert t[|t| - |d|..] == d;
  }

  /** A piece of a piece of `t` is a piece of `t`. */
  lemma ContainsTrans(t: string, u: string, p: string)
    requires Contains(t, u) && Contains(u, p)
    ensures Contains(t, p)
  {
    var i :| OccursAt(t, u, i);
    var j :| OccursAt(u, p, j);
    forall k | 0 <= k < |p|
      ensures t[i + j + k] == p[k]
    {
      assert t[i..i + |u|][j + k] == u[j + k];
      assert u[j..j + |p|][k] == p[k];
    }
    assert t[i + j..i + j + |p|] == p;
    assert OccursAt(t, p, i + j);
  }

  /** The clause block is part of the prompt that is sent. */
  lemma PromptHoldsBlock(style: string)
    ensures Contains(BuildPrompt(style), ClauseBlock(style))
  {
    var head := Indent + Headline(style) + Guidelines;
    assert BuildPrompt(style) == head + ClauseBlock(style) + "\n\n" + Directive;
    FramedBy(head, ClauseBlock(style), "\n\n", Directive);
  }

  /** The prompt sent for a style that has a clause carries that clause. */
  lemma PromptCarriesClause(name: string)
    requires name in StyleClauses
    ensures Contains(BuildPrompt(name), StyleClauses[name])
  {
    ClauseSelection(name, name);
    PromptHoldsBlock(name);
    ContainsTrans(BuildPrompt(name), ClauseBlock(name), StyleClauses[name]);
  }

  /** Where a dash occurs only at the start of one clause, the only clause-shaped
      piece found is the one whose text is a prefix of what follows that dash. */
  lemma ClauseOccurrence(pre: string, body: string, post: string, other: string)
    requires '-' !in pre && '-' !in body && '-' !in post
    ensures Contains(pre + ("- " + body) + post, "- " + other)
        <==> |other| <= |body + post| && (body + post)[..|other|] == other
  {
    var t := pre + ("- " + body) + post;
    var p := "- " + other;
    var n := |pre|;
    assert t == pre + "- " + (body + post);
    if |other| <= |body + post| && (body + post)[..|other|] == other {
      assert t[n..n + |p|] == p;
      assert OccursAt(t, p, n);
    }
    if Contains(t, p) {
      var i :| OccursAt(t, p, i);
      assert t[i] == '-' by { assert t[i..i + |p|][0] == p[0]; }
      assert i == n;
      assert (body + post)[..|other|] == t[n + 2..n + 2 + |other|];
      assert t[n + 2..n + 2 + |other|] == t[i..i + |p|][2..];
    }
  }

  /** Two dash-free texts joined are dash-free. */
  lemma DashFreeJoin(a: string, b: string)
    requires '-' !in a && '-' !in b
    ensures '-' !in a + b
  {
  }

  /** The clause text of "Funny" has no dash. */
  lemma FunnyTextDashFree()
    ensures '-' !in FunnyText
  {
    DashFreeJoin("Be humorous ", "but respectful");
  }

  /** The clause text of "Introspective" has no dash. */
  lemma IntrospectiveTextDashFree()
    ensures '-' !in IntrospectiveText
  {
    DashFreeJoin("Encourage reflection", " on personal ");
    DashFreeJoin("Encourage reflection" + " on personal ", "experiences, values,");
    DashFreeJoin("Encourage reflection" + " on personal " + "experiences, values,", " or growth");
  }

  /** The clause text of "Light-hearted" has no dash. */
  lemma LightHeartedTextDashFree()
    ensures '-' !in LightHeartedText
  {
    DashFreeJoin("Be fun and casual ", "to create a relaxed ");
    DashFreeJoin("Be fun and casual " + "to create a relaxed ", "atmosphere");
  }

  /** The clause text of "Thought-provoking" has no dash. */
  lemma ThoughtProvokingTextDashFree()
    ensures '-' !in ThoughtProvokingText
  {
    DashFreeJoin("Spark interesting ", "discussions and new ");
    DashFreeJoin("Spark interesting " + "discussions and new ", "perspectives");
  }

  /** Four slots of which at most the `k`-th is filled, joined by line breaks:
      the filled one has `k` line breaks before it and `3 - k` after it. */
  lemma SlotsJoined(k: int, c: string, s1: string, s2: string, s3: string, s4: string)
    requires 0 <= k < 4
    requires s1 == (if k == 0 then c else "") && s2 == (if k == 1 then c else "")
    requires s3 == (if k == 2 then c else "") && s4 == (if k == 3 then c else "")
    ensures s1 + "\n" + s2 + "\n" + s3 + "\n" + s4 == Newlines(k) + c + Newlines(3 - k)
  {
  }

  /** `n` line breaks. */
  function Newlines(n: nat): string {
    if n == 0 then "" else "\n" + Newlines(n - 1)
  }

  /** The text of the clause mapped to `name`, after its leading "- ". */
  function ClauseText(name: string): (t: string)
    requires name in StyleClauses
    ensures StyleClauses[name] == "- " + t
  {
    if name == "Funny" then FunnyText
    else if name == "Introspective" then IntrospectiveText
    else if name == "Light-hearted" then LightHeartedText
    else ThoughtProvokingText
  }

  /** A clause text followed by line breaks starts with the text of the clause mapped
      to `name` only when `name` is that clause's style. */
  lemma ClauseTextsApart(name: string, k: nat)
    requires name in StyleClauses && k <= 3
    ensures var t := FunnyText + Newlines(k); |ClauseText(name)| <= |t| && t[..|ClauseText(name)|] == ClauseText(name) <==> name == "Funny"
    ensures var t := IntrospectiveText + Newlines(k); |ClauseText(name)| <= |t| && t[..|ClauseText(name)|] == ClauseText(name) <==> name == "Introspective"
    ensures var t := LightHeartedText + Newlines(k); |ClauseText(name)| <= |t| && t[..|ClauseText(name)|] == ClauseText(name) <==> name == "Light-hearted"
    ensures var t := ThoughtProvokingText + Newlines(k); |ClauseText(name)| <= |t| && t[..|ClauseText(name)|] == ClauseText(name) <==> name == "Thought-provoking"
  {
    assert FunnyText[0] == 'B' && FunnyText[3] == 'h' && IntrospectiveText[0] == 'E';
    assert LightHeartedText[0] == 'B' && LightHeartedText[3] == 'f' && ThoughtProvokingText[0] == 'S';
  }

  /** The clause block holds the clause of `name` exactly when the selected style is
      `name` (exact, case-sensitive equality). So at most one clause appears, it is
      the one mapped to the selected style, and an unknown style gets none. */
  lemma ClauseSelection(style: string, name: string)
    requires name in StyleClauses
    ensures Contains(ClauseBlock(style), StyleClauses[name]) <==> style == name
  {
    if style == "Funny" {
      FunnySelected(name);
    } else if style == "Introspective" {
      IntrospectiveSelected(name);
    } else if style == "Light-hearted" {
      LightHeartedSelected(name);
    } else if style == "Thought-provoking" {
      ThoughtProvokingSelected(name);
    } else {
      SlotsJoined(0, "", "", "", "", "");
      assert ClauseBlock(style) == Newlines(3);
    }
  }

  /** With "Funny" selected, only its own clause is found in the clause block. */
  lemma FunnySelected(name: string)
    requires name in StyleClauses
    ensures Contains(ClauseBlock("Funny"), StyleClauses[name]) <==> name == "Funny"
  {
    FunnyTextDashFree();
    SlotsJoined(0, FunnyClause, FunnyClause, "", "", "");
    ClauseOccurrence(Newlines(0), FunnyText, Newlines(3), ClauseText(name));
    ClauseTextsApart(name, 3);
  }

  /** With "Introspective" selected, only its own clause is found in the clause block. */
  lemma IntrospectiveSelected(name: string)
    requires name in StyleClauses
    ensures Contains(ClauseBlock("Introspective"), StyleClauses[name]) <==> name == "Introspective"
  {
    IntrospectiveTextDashFree();
    SlotsJoined(1, IntrospectiveClause, "", IntrospectiveClause, "", "");
    ClauseOccurrence(Newlines(1), IntrospectiveText, Newlines(2), ClauseText(name));
    ClauseTextsApart(name, 2);
  }

  /** With "Light-hearted" selected, only its own clause is found in the clause block. */
  lemma LightHeartedSelected(name: string)
    requires name in StyleClauses
    ensures Contains(ClauseBlock("Light-hearted"), StyleClauses[name]) <==> name == "Light-hearted"
  {
    LightHeartedTextDashFree();
    SlotsJoined(2, LightHeartedClause, "", "", LightHeartedClause, "");
    ClauseOccurrence(Newlines(2), LightHeartedText, Newlines(1), ClauseText(name));
    ClauseTextsApart(name, 1);
  }

  /** With "Thought-provoking" selected, only its own clause is found in the clause block. */
  lemma ThoughtProvokingSelected(name: string)
    requires name in StyleClauses
    ensures Contains(ClauseBlock("Thought-provoking"), StyleClauses[name]) <==> name == "Thought-provoking"
  {
    ThoughtProvokingTextDashFree();
    SlotsJoined(3, ThoughtProvokingClause, "", "", "", ThoughtProvokingClause);
    ClauseOccurrence(Newlines(3), ThoughtProvokingText, Newlines(0), ClauseText(name));
    ClauseTextsApart(name, 0);
  }

  /** Every style of the catalog has a clause, and only catalog styles do. */
  lemma CatalogHasClauses()
    ensures forall i :: 0 <= i < |QuestionStyles.Catalog| ==> QuestionStyles.Catalog[i].name in StyleClauses
    ensures forall name :: name in StyleClauses ==> name in QuestionStyles.Names()
  {
    QuestionStyles.CatalogNames();
  }

  /** The prompt for "Funny" asks for a "funny ice-breaker question" and carries the
      humour clause. */
  lemma FunnyPrompt()
    ensures Contains(BuildPrompt("Funny"), Lead + "funny" + Trail)
    ensures Contains(BuildPrompt("Funny"), FunnyClause)
  {
    FunnyLowered();
    PromptFrame("Funny");
    PromptCarriesClause("Funny");
  }

  /** "Funny" lower-cases to "funny". */
  lemma FunnyLowered()
    ensures ToLowerCase("Funny") == "funny"
  {
    var r := ToLowerCase("Funny");
    assert r[0] == 'f' && r[1] == 'u' && r[2] == 'n' && r[3] == 'n' && r[4] == 'y';
  }
}
