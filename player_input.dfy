/** How the game reads its players: every typed line is stripped of surrounding
    whitespace and lowercased, then either accepted or answered with a new
    prompt. The terminal itself is a parameter here: the lines a player would
    type are given as a sequence, and running out of them stands for the end
    of input. */
module PlayerInput {
  import opened Wrappers
  import opened Rules

  // ---------------------------------------------------------------------------
  // Normalisation: str.strip() followed by str.lower()
  // ---------------------------------------------------------------------------

  /** The characters Python's str.isspace accepts, which str.strip removes. */
  predicate IsSpace(c: char)
  {
    || '\t' <= c <= '\r'
    || '\U{1C}' <= c <= '\U{20}'
    || c == '\U{85}' || c == '\U{A0}' || c == '\U{1680}'
    || '\U{2000}' <= c <= '\U{200A}'
    || c == '\U{2028}' || c == '\U{2029}' || c == '\U{202F}'
    || c == '\U{205F}' || c == '\U{3000}'
  }

  predicate AllSpace(s: string)
  {
    forall i :: 0 <= i < |s| ==> IsSpace(s[i])
  }

  /** Drops leading whitespace (see StripLeftSpec). */
  function StripLeft(s: string): string
  {
    if s != [] && IsSpace(s[0]) then StripLeft(s[1..]) else s
  }

  /** Drops trailing whitespace (see StripRightSpec). */
  function StripRight(s: string): string
  {
    if s != [] && IsSpace(s[|s| - 1]) then StripRight(s[..|s| - 1]) else s
  }

  /** str.strip(): the result is no longer than `s` and has no whitespace at
      either end (StripSpec says exactly which piece of `s` it is). */
  function Strip(s: string): (r: string)
    ensures |r| <= |s|
    ensures r != [] ==> !IsSpace(r[0]) && !IsSpace(r[|r| - 1])
  {
    StripLeftSpec(s);
    StripRightSpec(StripLeft(s));
    StripRight(StripLeft(s))
  }

  /** str.lower() on ASCII capitals, Latin-1 capitals and the Kelvin sign;
      every other character is kept. */
  function LowerChar(c: char): char
  {
    if 'A' <= c <= 'Z' then (c as int + 32) as char
    else if '\U{C0}' <= c <= '\U{DE}' && c != '\U{D7}' then (c as int + 32) as char
    else if c == '\U{212A}' then 'k'
    else c
  }

  function Lower(s: string): (r: string)
    ensures |r| == |s|
  {
    if s == [] then [] else [LowerChar(s[0])] + Lower(s[1..])
  }

  /** The form in which every response is judged: stripped, then lowercased,
      so it too has no whitespace at either end. */
  function Normalize(s: string): (r: string)
    ensures |r| <= |s|
    ensures r != [] ==> !IsSpace(r[0]) && !IsSpace(r[|r| - 1])
  {
    LowerKeepsEnds(Strip(s));
    Lower(Strip(s))
  }

  // ---------------------------------------------------------------------------
  // Classifying one normalised response
  // ---------------------------------------------------------------------------

  /** A choice is accepted, as itself, exactly when it is one of the options. */
  function AcceptChoice(answer: string, options: seq<string>): (r: Option<string>)
    ensures r.Some? <==> answer in options
    ensures r.Some? ==> r.value == answer
  {
    if answer in options then Some(answer) else None
  }

  const YesWords: seq<string> := ["s", "sim"]
  const NoWords: seq<string> := ["n", "nao", "n\U{E3}o"]

  /** "s"/"sim" mean yes, "n"/"nao"/"não" mean no, anything else is asked again. */
  function ClassifyYesNo(answer: string): (r: Option<bool>)
    ensures r == Some(true) <==> answer in YesWords
    ensures r == Some(false) <==> answer in NoWords
    ensures r == None <==> answer !in YesWords && answer !in NoWords
  {
    if answer in YesWords then Some(true)
    else if answer in NoWords then Some(false)
    else None
  }

  // ---------------------------------------------------------------------------
  // The prompting loops
  // ---------------------------------------------------------------------------

  /** Reads responses until one names an option. The result is the accepted
      option and the index of the response that named it; None means the
      input ended first, every response having been rejected. */
  method GetPlayerChoice(responses: seq<string>, options: seq<string>) returns (r: Option<(string, nat)>)
    ensures r.Some? ==>
              && r.value.1 < |responses|
              && r.value.0 in options
              && AcceptChoice(Normalize(responses[r.value.1]), options) == Some(r.value.0)
              && forall j :: 0 <= j < r.value.1 ==> AcceptChoice(Normalize(responses[j]), options) == None
    ensures r == None ==> forall j :: 0 <= j < |responses| ==> AcceptChoice(Normalize(responses[j]), options) == None
  {
    var i := 0;
    while i < |responses|
      invariant 0 <= i <= |responses|
      invariant forall j :: 0 <= j < i ==> AcceptChoice(Normalize(responses[j]), options) == None
    {
      var answer := Normalize(responses[i]);
      var accepted := AcceptChoice(answer, options);
      if accepted.Some? {
        assert accepted.value in options;
        r := Some((accepted.value, i));
        return;
      }
      i := i + 1;
    }
    return None;
  }

  /** Reads responses until one is a yes or a no word; None means the input
      ended first. */
  method GetYesNo(responses: seq<string>) returns (r: Option<(bool, nat)>)
    ensures r.Some? ==>
              && r.value.1 < |responses|
              && ClassifyYesNo(Normalize(responses[r.value.1])) == Some(r.value.0)
              && forall j :: 0 <= j < r.value.1 ==> ClassifyYesNo(Normalize(responses[j])) == None
    ensures r == None ==> forall j :: 0 <= j < |responses| ==> ClassifyYesNo(Normalize(responses[j])) == None
  {
    var i := 0;
    while i < |responses|
      invariant 0 <= i <= |responses|
      invariant forall j :: 0 <= j < i ==> ClassifyYesNo(Normalize(responses[j])) == None
    {
      var answer := Normalize(responses[i]);
      var meaning := ClassifyYesNo(answer);
      if meaning.Some? {
        r := Some((meaning.value, i));
        return;
      }
      i := i + 1;
    }
    return None;
  }

  /** The computer's move: some option, of which the model does not say which. */
  method GetComputerChoice(options: seq<string>) returns (c: string)
    requires options != []
    ensures c in options
  {
    assert options[0] in options;
    c :| c in options;
  }

  // ---------------------------------------------------------------------------
  // Properties of normalisation
  // ---------------------------------------------------------------------------

  /** What StripLeft leaves is a suffix of its argument that is empty or
      starts with a non-space, and everything it drops is whitespace. */
  lemma {:induction false} StripLeftSpec(s: string)
    ensures var r := StripLeft(s);
            && |r| <= |s| && r == s[|s| - |r|..]
            && AllSpace(s[..|s| - |r|])
            && (r != [] ==> !IsSpace(r[0]))
  {
    if s != [] && IsSpace(s[0]) {
      StripLeftSpec(s[1..]);
      var r := StripLeft(s);
      assert s[..|s| - |r|] == [s[0]] + s[1..][..|s| - 1 - |r|];
    }
  }

  /** What StripRight leaves is a prefix of its argument that is empty or
      ends with a non-space, and everything it drops is whitespace. */
  lemma {:induction false} StripRightSpec(s: string)
    ensures var r := StripRight(s);
            && |r| <= |s| && r == s[..|r|]
            && AllSpace(s[|r|..])
            && (r != [] ==> !IsSpace(r[|r| - 1]))
  {
    if s != [] && IsSpace(s[|s| - 1]) {
      var front := s[..|s| - 1];
      StripRightSpec(front);
      var r := StripRight(s);
      assert s[|r|..] == front[|r|..] + [s[|s| - 1]];
    }
  }

  /** Strip leaves a contiguous piece of its argument, with whitespace only
      around it and no whitespace at either of its ends. */
  lemma {:induction false} StripSpec(s: string)
    ensures var r := Strip(s);
            exists i, j :: && 0 <= i <= j <= |s| && r == s[i..j]
                           && AllSpace(s[..i]) && AllSpace(s[j..])
                           && (r != [] ==> !IsSpace(r[0]) && !IsSpace(r[|r| - 1]))
  {
    var l := StripLeft(s);
    StripLeftSpec(s);
    StripRightSpec(l);
    var r := StripRight(l);
    var i := |s| - |l|;
    var j := i + |r|;
    assert r == s[i..j];
    assert s[j..] == l[|r|..];
  }

  lemma LowerCharKeepsSpace(c: char)
    ensures IsSpace(LowerChar(c)) == IsSpace(c)
  {
  }

  lemma {:induction false} StripOfTrimmed(s: string)
    requires s == [] || (!IsSpace(s[0]) && !IsSpace(s[|s| - 1]))
    ensures Strip(s) == s
  {
  }

  /** Lowercasing works character by character. */
  lemma {:induction false} LowerAt(s: string, i: nat)
    requires i < |s|
    ensures Lower(s)[i] == LowerChar(s[i])
  {
    if i > 0 {
      LowerAt(s[1..], i - 1);
    }
  }

  lemma {:induction false} LowerKeepsEnds(t: string)
    ensures Lower(t) != [] ==> IsSpace(Lower(t)[0]) == IsSpace(t[0])
    ensures Lower(t) != [] ==> IsSpace(Lower(t)[|t| - 1]) == IsSpace(t[|t| - 1])
  {
    if t != [] {
      LowerAt(t, 0);
      LowerAt(t, |t| - 1);
      LowerCharKeepsSpace(t[0]);
      LowerCharKeepsSpace(t[|t| - 1]);
    }
  }

  lemma {:induction false} LowerAppend(a: string, b: string)
    ensures Lower(a + b) == Lower(a) + Lower(b)
  {
    if a == [] {
      assert a + b == b;
    } else {
      assert (a + b)[1..] == a[1..] + b;
      LowerAppend(a[1..], b);
    }
  }

  lemma {:induction false} LowerIdempotent(s: string)
    ensures Lower(Lower(s)) == Lower(s)
  {
    if s != [] {
      var l := Lower(s);
      assert l[1..] == Lower(s[1..]);
      LowerIdempotent(s[1..]);
    }
  }

  /** Normalising twice is normalising once: an accepted answer is already in
      normal form. */
  lemma {:induction false} NormalizeIdempotent(s: string)
    ensures Normalize(Normalize(s)) == Normalize(s)
  {
    var t := Strip(s);
    var u := Lower(t);
    StripLeftSpec(s);
    StripRightSpec(StripLeft(s));
    if u != [] {
      LowerAt(t, 0);
      LowerAt(t, |t| - 1);
      LowerCharKeepsSpace(t[0]);
      LowerCharKeepsSpace(t[|t| - 1]);
    }
    StripOfTrimmed(u);
    LowerIdempotent(t);
  }

  /** Leading whitespace is dropped whatever follows it. */
  lemma {:induction false} StripLeftSkipsSpace(w: string, x: string)
    requires AllSpace(w)
    ensures StripLeft(w + x) == StripLeft(x)
  {
    if w != [] {
      assert (w + x)[0] == w[0] && IsSpace(w[0]);
      assert (w + x)[1..] == w[1..] + x;
      StripLeftSkipsSpace(w[1..], x);
    } else {
      assert w + x == x;
    }
  }

  /** Trailing whitespace is dropped whatever precedes it. */
  lemma {:induction false} StripRightSkipsSpace(x: string, w: string)
    requires AllSpace(w)
    ensures StripRight(x + w) == StripRight(x)
  {
    if w != [] {
      var w' := w[..|w| - 1];
      assert (x + w)[..|x + w| - 1] == x + w';
      StripRightSkipsSpace(x, w');
    } else {
      assert x + w == x;
    }
  }

  /** Appending whitespace to a string commutes with dropping its leading
      whitespace, unless the string held nothing else. */
  lemma {:induction false} StripLeftAppendSpace(x: string, w: string)
    requires AllSpace(w)
    ensures StripLeft(x) != [] ==> StripLeft(x + w) == StripLeft(x) + w
    ensures StripLeft(x) == [] ==> StripLeft(x + w) == []
  {
    if x == [] {
      assert x + w == w;
      StripLeftSkipsSpace(w, []);
      assert w + [] == w;
    } else if IsSpace(x[0]) {
      assert (x + w)[1..] == x[1..] + w;
      StripLeftAppendSpace(x[1..], w);
    }
  }

  /** Surrounding whitespace does not change how a response is read. */
  lemma {:induction false} NormalizeIgnoresPadding(w1: string, s: string, w2: string)
    requires AllSpace(w1) && AllSpace(w2)
    ensures Normalize(w1 + s + w2) == Normalize(s)
  {
    assert w1 + s + w2 == w1 + (s + w2);
    StripLeftSkipsSpace(w1, s + w2);
    StripLeftAppendSpace(s, w2);
    if StripLeft(s) != [] {
      StripRightSkipsSpace(StripLeft(s), w2);
    }
  }

  /** Lowercase letters (ASCII or "ã") only. */
  predicate PlainLower(s: string)
  {
    forall i :: 0 <= i < |s| ==> 'a' <= s[i] <= 'z' || s[i] == '\U{E3}'
  }

  lemma {:induction false} PlainLowerIsLower(s: string)
    requires PlainLower(s)
    ensures Lower(s) == s
  {
    if s != [] {
      assert PlainLower(s[1..]);
      PlainLowerIsLower(s[1..]);
    }
  }

  lemma {:induction false} PlainLowerIsNormal(s: string)
    requires PlainLower(s)
    ensures Normalize(s) == s
  {
    StripOfTrimmed(s);
    PlainLowerIsLower(s);
  }

  /** Every option of both variants, and every yes/no word, is its own normal form. */
  lemma {:induction false} WordsAreNormal(o: string)
    requires o in PplsOptions || o in YesWords || o in NoWords
    ensures Normalize(o) == o
  {
    if o in PplsOptions {
      assert PlainLower(o);
    } else if o in YesWords {
      assert PlainLower(o);
    } else {
      assert PlainLower(o);
    }
    PlainLowerIsNormal(o);
  }

  /** An option typed with surrounding whitespace is accepted as itself. */
  lemma {:induction false} PaddedOptionAccepted(v: Variant, w1: string, o: string, w2: string)
    requires o in Options(v)
    requires AllSpace(w1) && AllSpace(w2)
    ensures AcceptChoice(Normalize(w1 + o + w2), Options(v)) == Some(o)
  {
    NormalizeIgnoresPadding(w1, o, w2);
    WordsAreNormal(o);
  }

  /** An accepted choice is a normalised string and an element of the options. */
  lemma {:induction false} AcceptedIsNormal(raw: string, options: seq<string>)
    requires AcceptChoice(Normalize(raw), options).Some?
    ensures var c := AcceptChoice(Normalize(raw), options).value;
            c in options && Normalize(c) == c
  {
    NormalizeIdempotent(raw);
  }

  lemma {:induction false} LowerCommutesWithStripLeft(s: string)
    ensures StripLeft(Lower(s)) == Lower(StripLeft(s))
  {
    if s != [] {
      LowerCharKeepsSpace(s[0]);
      if IsSpace(s[0]) {
        assert Lower(s)[1..] == Lower(s[1..]);
        LowerCommutesWithStripLeft(s[1..]);
      }
    }
  }

  lemma {:induction false} LowerCommutesWithStripRight(s: string)
    ensures StripRight(Lower(s)) == Lower(StripRight(s))
  {
    if s != [] {
      var n := |s|;
      var front := s[..n - 1];
      assert s == front + [s[n - 1]];
      LowerAppend(front, [s[n - 1]]);
      assert Lower([s[n - 1]]) == [LowerChar(s[n - 1])];
      LowerCharKeepsSpace(s[n - 1]);
      var l := Lower(s);
      assert l[..n - 1] == Lower(front);
      if IsSpace(s[n - 1]) {
        LowerCommutesWithStripRight(front);
      }
    }
  }

  /** Responses that lowercase alike are read alike: capitals are forgiven. */
  lemma {:induction false} NormalizeIgnoresCase(a: string, b: string)
    requires Lower(a) == Lower(b)
    ensures Normalize(a) == Normalize(b)
  {
    LowerCommutesWithStripLeft(a);
    LowerCommutesWithStripLeft(b);
    LowerCommutesWithStripRight(StripLeft(a));
    LowerCommutesWithStripRight(StripLeft(b));
    LowerIdempotent(Strip(a));
    LowerIdempotent(Strip(b));
  }

  /** A capitalised "não" is read as no. */
  lemma ExampleNo()
    ensures ClassifyYesNo(Normalize("N\U{C3}O")) == Some(false)
  {
    StripOfTrimmed("N\U{C3}O");
    assert Lower("N\U{C3}O") == "n\U{E3}o";
  }
}
