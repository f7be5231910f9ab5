/**
 * Prompt normalisation of the cache server: `norm_text`
 * (`" ".join(s.strip().split()).lower()`) and the exact-match key that the
 * chat-completions endpoint builds from the `user` messages of a request.
 */
module Prompts {
  import opened TextOps

  /** One chat message as the endpoints receive it. */
  datatype Message = Message(role: string, content: string)

  /** The longest prefix of `s` without whitespace. */
  function FirstWord(s: string): (w: string)
    ensures |w| <= |s| && w == s[..|w|]
    ensures forall i :: 0 <= i < |w| ==> !IsSpace(w[i])
    ensures |w| < |s| ==> IsSpace(s[|w|])
    ensures s != [] && !IsSpace(s[0]) ==> |w| >= 1
  {
    if s == [] || IsSpace(s[0]) then [] else [s[0]] + FirstWord(s[1..])
  }

  /** A word of `split()`: non-empty and free of whitespace. */
  predicate IsWord(w: string)
  {
    w != [] && forall i :: 0 <= i < |w| ==> !IsSpace(w[i])
  }

  /** Python's `s.split()` with no argument: the maximal runs of non-whitespace.
      (`strip()` before `split()` removes only whitespace that `split()` skips anyway.) */
  function Words(s: string): (ws: seq<string>)
    ensures forall i :: 0 <= i < |ws| ==> IsWord(ws[i])
    decreases |s|
  {
    if s == [] then []
    else if IsSpace(s[0]) then Words(s[1..])
    else
      var w := FirstWord(s);
      [w] + Words(s[|w|..])
  }

  /** `SemanticCacheService.norm_text`. */
  function NormText(s: string): string
  {
    Lower(Join(Words(s), " "))
  }

  /** The only whitespace is a single space between two non-spaces. */
  predicate SpacesCollapsed(r: string)
  {
    && (forall i :: 0 <= i < |r| ==> IsSpace(r[i]) ==> r[i] == ' ')
    && (r != [] ==> r[0] != ' ' && r[|r| - 1] != ' ')
    && (forall i :: 0 <= i < |r| - 1 ==> r[i] == ' ' ==> r[i + 1] != ' ')
  }

  /** What `norm_text` produces: collapsed whitespace and no upper-case letter. */
  predicate IsNormalized(r: string)
  {
    SpacesCollapsed(r) && forall i :: 0 <= i < |r| ==> !IsUpper(r[i])
  }

  lemma {:induction false} JoinWordsCollapsed(ws: seq<string>)
    requires forall i :: 0 <= i < |ws| ==> IsWord(ws[i])
    ensures SpacesCollapsed(Join(ws, " "))
    ensures ws != [] ==> Join(ws, " ") != []
  {
    if |ws| > 1 {
      JoinWordsCollapsed(ws[1..]);
      var w, j := ws[0], Join(ws[1..], " ");
      var r := w + " " + j;
      assert Join(ws, " ") == r;
      assert IsWord(w);
      forall i | 0 <= i < |r| && IsSpace(r[i]) ensures r[i] == ' ' {
        if i > |w| { assert r[i] == j[i - |w| - 1]; }
      }
      forall i | 0 <= i < |r| - 1 && r[i] == ' ' ensures r[i + 1] != ' ' {
        if i == |w| {
          assert r[i + 1] == j[0];
        } else if i > |w| {
          assert r[i] == j[i - |w| - 1] && r[i + 1] == j[i - |w|];
        }
      }
    }
  }

  lemma LowerKeepsSpaces(r: string)
    requires SpacesCollapsed(r)
    ensures IsNormalized(Lower(r))
  {
    var l := Lower(r);
    assert forall i :: 0 <= i < |r| ==> (IsSpace(l[i]) <==> IsSpace(r[i])) && (l[i] == ' ' <==> r[i] == ' ');
  }

  /** The output of `norm_text` is lower-case, with no leading or trailing
      whitespace and no two consecutive spaces. */
  lemma NormTextIsNormalized(s: string)
    ensures IsNormalized(NormText(s))
  {
    JoinWordsCollapsed(Words(s));
    LowerKeepsSpaces(Join(Words(s), " "));
  }

  /** What follows a space of a collapsed string is collapsed and starts with
      a non-space. */
  lemma CollapsedAfterSpace(r: string, k: int)
    requires SpacesCollapsed(r) && 0 < k <= |r| && r[k - 1] == ' '
    ensures r[k..] != [] && !IsSpace(r[k]) && SpacesCollapsed(r[k..])
  {
    assert k < |r| by { assert r[|r| - 1] != ' '; }
    var rest := r[k..];
    forall i | 0 <= i < |rest| ensures rest[i] == r[k + i] { }
  }

  /** A collapsed string that does not end with its first word continues with
      one space and a collapsed remainder that starts with a non-space. */
  lemma AfterFirstWord(r: string) returns (rest: string)
    requires SpacesCollapsed(r) && r != [] && |FirstWord(r)| < |r|
    ensures r == FirstWord(r) + " " + rest
    ensures rest != [] && !IsSpace(rest[0]) && SpacesCollapsed(rest)
    ensures Words(r[|FirstWord(r)|..]) == Words(rest)
  {
    var w := FirstWord(r);
    rest := r[|w| + 1..];
    assert r[|w|] == ' ';
    CollapsedAfterSpace(r, |w| + 1);
    assert r[|w|..][1..] == rest;
    assert r == w + [r[|w|]] + rest;
  }

  /** On a string with collapsed whitespace, splitting into words and joining
      them with single spaces gives the string back. */
  lemma {:induction false} JoinWordsOfCollapsed(r: string)
    requires SpacesCollapsed(r)
    ensures Join(Words(r), " ") == r
    ensures r != [] ==> Words(r) != []
    decreases |r|
  {
    if r != [] {
      assert !IsSpace(r[0]);
      var w := FirstWord(r);
      assert Words(r) == [w] + Words(r[|w|..]);
      if |w| == |r| {
        assert r[|w|..] == [];
        assert w == r;
      } else {
        var rest := AfterFirstWord(r);
        JoinWordsOfCollapsed(rest);
        assert Join(Words(r), " ") == w + " " + rest;
      }
    }
  }

  lemma {:induction false} LowerOfLowerCase(r: string)
    requires forall i :: 0 <= i < |r| ==> !IsUpper(r[i])
    ensures Lower(r) == r
  {
  }

  /** A normalised string is a fixed point of `norm_text`. */
  lemma NormalizedIsFixedPoint(r: string)
    requires IsNormalized(r)
    ensures NormText(r) == r
  {
    JoinWordsOfCollapsed(r);
    LowerOfLowerCase(r);
  }

  /** `norm_text` is idempotent. */
  lemma NormTextIdempotent(s: string)
    ensures NormText(NormText(s)) == NormText(s)
  {
    NormTextIsNormalized(s);
    NormalizedIsFixedPoint(NormText(s));
  }

  /** The contents of the `user` messages, in order. */
  function UserContents(messages: seq<Message>): seq<string>
  {
    if messages == [] then []
    else (if messages[0].role == "user" then [messages[0].content] else [])
         + UserContents(messages[1..])
  }

  /** The exact-match key of a chat-completions request: the `user` contents
      joined by one space, then normalised. */
  function ChatPromptKey(messages: seq<Message>): (key: string)
    ensures IsNormalized(key)
  {
    NormTextIsNormalized(Join(UserContents(messages), " "));
    NormText(Join(UserContents(messages), " "))
  }

  lemma {:induction false} UserContentsAppend(a: seq<Message>, b: seq<Message>)
    ensures UserContents(a + b) == UserContents(a) + UserContents(b)
  {
    if a != [] {
      assert (a + b)[0] == a[0];
      assert (a + b)[1..] == a[1..] + b;
      UserContentsAppend(a[1..], b);
    } else {
      assert a + b == b;
    }
  }

  /** A system or assistant message, wherever it stands, never changes the key. */
  lemma NonUserMessageKeepsKey(before: seq<Message>, m: Message, after: seq<Message>)
    requires m.role != "user"
    ensures ChatPromptKey(before + [m] + after) == ChatPromptKey(before + after)
  {
    UserContentsAppend(before + [m], after);
    UserContentsAppend(before, [m]);
    UserContentsAppend(before, after);
    assert UserContents([m]) == [];
    assert UserContents(before + [m]) == UserContents(before);
    assert UserContents(before + [m] + after) == UserContents(before + after);
  }
}
