/** Classifying RFQ errors: the execute message embedded in a failed tx log is cut out first, so
    that what a user put into it cannot decide the class. */
module ErrorLog {
  import opened Chain

  /** What the embedded message starts with, and what replaces it. */
  const MARKER: string := "msg:\""
  const PLACEHOLDER: string := "msg:<\U{2026}>"

  /** A quoted body in which every quote is escaped: escapes are a backslash and any character but a
      newline. */
  predicate WellEscaped(body: string) {
    if body == "" then true
    else if body[0] == '\\' then |body| >= 2 && body[1] != '\n' && WellEscaped(body[2..])
    else body[0] != '"' && WellEscaped(body[1..])
  }

  /** Scans for the end of a quoted body, up to and including the closing quote. */
  function Quoted(s: string): (n: Option<nat>)
    ensures n.Some? ==> 1 <= n.value <= |s|
  {
    if s == "" then None
    else if s[0] == '"' then Some(1)
    else if s[0] == '\\' then
      if |s| < 2 || s[1] == '\n' then None
      else match Quoted(s[2..])
           case None => None
           case Some(n) => Some(n + 2)
    else match Quoted(s[1..])
         case None => None
         case Some(n) => Some(n + 1)
  }

  /** The length of an embedded message at the start of `s`. */
  function MatchAtStart(s: string): (n: Option<nat>)
    ensures n.Some? ==> |MARKER| < n.value <= |s| && MARKER <= s
  {
    if !(MARKER <= s) then None
    else match Quoted(s[|MARKER|..])
         case None => None
         case Some(n) => Some(|MARKER| + n)
  }

  /** Replaces every embedded message, from the left. */
  function Strip(s: string): string
    decreases |s|
  {
    if s == "" then ""
    else match MatchAtStart(s)
         case Some(n) => PLACEHOLDER + Strip(s[n..])
         case None => [s[0]] + Strip(s[1..])
  }

  // ---------------------------------------------------------------------------
  // The scanner

  /** A well-escaped body is a sequence of units: a character that is neither a quote nor a backslash, or a
      backslash and a character that is not a newline. */
  lemma {:induction false} WellEscapedUnits(a: string, b: string, c: char)
    ensures WellEscaped("")
    ensures WellEscaped([c]) <==> c != '"' && c != '\\'
    ensures WellEscaped(['\\', c]) <==> c != '\n'
    ensures WellEscaped(a) ==> (WellEscaped(a + b) <==> WellEscaped(b))
    decreases |a|
  {
    assert WellEscaped([c][1..]) && WellEscaped(['\\', c][2..]);
    if a == "" {
      assert a + b == b;
    } else {
      var unit := if a[0] == '\\' then 2 else 1;
      if WellEscaped(a) {
        assert (a + b)[unit..] == a[unit..] + b;
        WellEscapedUnits(a[unit..], b, c);
      }
    }
  }

  /** The scanner finds exactly the first quote that ends a well-escaped body. */
  lemma {:induction false} QuotedIff(s: string, n: nat)
    ensures Quoted(s) == Some(n) <==> 1 <= n <= |s| && s[n - 1] == '"' && WellEscaped(s[..n - 1])
    decreases |s|
  {
    if s != "" && s[0] != '"' {
      var skip := if s[0] == '\\' then 2 else 1;
      if |s| >= skip {
        if n > skip {
          QuotedIff(s[skip..], n - skip);
          if n <= |s| {
            assert s[..n - 1][skip..] == s[skip..][..n - 1 - skip];
          }
        } else if skip <= |s| && n >= 1 && n <= |s| {
          assert s[..n - 1] == if n == 1 then "" else [s[0]];
        }
      }
    }
  }

  predicate NoMarker(s: string) {
    forall i | 0 <= i <= |s| :: !(MARKER <= s[i..])
  }

  lemma DiffersFromMarker(s: string, k: nat)
    requires k < |MARKER| && (|s| <= k || s[k] != MARKER[k])
    ensures !(MARKER <= s)
  {
  }

  lemma SpellsMarker(s: string, k: nat)
    requires MARKER <= s && k < |MARKER|
    ensures s[k] == MARKER[k]
  {
  }

  /** No marker begins before the one that follows a text: a marker's first letter occurs in it once. */
  lemma NoEarlierMarker(before: string, rest: string)
    requires !(MARKER <= before) && before != ""
    ensures !(MARKER <= before + MARKER + rest)
  {
    var s := before + MARKER + rest;
    if |before| < |MARKER| {
      assert s[|before|] == 'm';
      DiffersFromMarker(s, |before|);
    } else {
      assert s[..|MARKER|] == before[..|MARKER|];
    }
  }

  // ---------------------------------------------------------------------------
  // Stripping

  /** Stripping copies a text in which no match begins. */
  lemma {:induction false} StripSkips(text: string, rest: string)
    requires forall i | 0 <= i < |text| :: MatchAtStart((text + rest)[i..]).None?
    ensures Strip(text + rest) == text + Strip(rest)
  {
    hide MatchAtStart;
    var s := text + rest;
    if text == "" {
      assert s == rest;
    } else {
      assert s[0..] == s;
      assert s[1..] == text[1..] + rest;
      forall i | 0 <= i < |text[1..]| ensures MatchAtStart((text[1..] + rest)[i..]).None? {
        assert (text[1..] + rest)[i..] == s[i + 1..];
      }
      StripSkips(text[1..], rest);
      assert [text[0]] + (text[1..] + Strip(rest)) == text + Strip(rest);
    }
  }

  lemma StripAfterPrefix(prefix: string, rest: string)
    requires NoMarker(prefix)
    ensures Strip(prefix + (MARKER + rest)) == prefix + Strip(MARKER + rest)
  {
    var s := prefix + (MARKER + rest);
    forall i | 0 <= i < |prefix| ensures MatchAtStart(s[i..]).None? {
      assert s[i..] == prefix[i..] + MARKER + rest;
      NoEarlierMarker(prefix[i..], rest);
    }
    StripSkips(prefix, MARKER + rest);
  }

  /** A marker whose body has no end is kept. */
  lemma StripKeepsOpenMarker(rest: string)
    requires Quoted(rest).None?
    ensures Strip(MARKER + rest) == MARKER + Strip(rest)
  {
    var s := MARKER + rest;
    forall i | 0 <= i < |MARKER| ensures MatchAtStart(s[i..]).None? {
      if i == 0 {
        assert s[i..][|MARKER|..] == rest;
      } else {
        assert s[i..][0] == MARKER[i];
        DiffersFromMarker(s[i..], 0);
      }
    }
    StripSkips(MARKER, rest);
  }

  lemma StripPassesPlaceholder(rest: string)
    ensures Strip(PLACEHOLDER + rest) == PLACEHOLDER + Strip(rest)
  {
    var s := PLACEHOLDER + rest;
    forall i | 0 <= i < |PLACEHOLDER| ensures MatchAtStart(s[i..]).None? {
      if i == 0 {
        assert s[i..][4] == PLACEHOLDER[4];
        DiffersFromMarker(s[i..], 4);
      } else {
        assert s[i..][0] == PLACEHOLDER[i];
        DiffersFromMarker(s[i..], 0);
      }
    }
    StripSkips(PLACEHOLDER, rest);
  }

  lemma {:induction false} StripCutsMessage(tail: string, n: nat)
    requires Quoted(tail) == Some(n)
    ensures Strip(MARKER + tail) == PLACEHOLDER + Strip(tail[n..])
  {
    hide Quoted;
    var s := MARKER + tail;
    assert s[|MARKER|..] == tail;
    assert s[|MARKER| + n..] == tail[n..];
    assert MatchAtStart(s) == Some(|MARKER| + n);
    hide MatchAtStart;
  }

  lemma StripMessage(payload: string, rest: string)
    requires WellEscaped(payload)
    ensures Strip(MARKER + (payload + "\"" + rest)) == PLACEHOLDER + Strip(rest)
  {
    hide Strip;
    var tail := payload + "\"" + rest;
    assert tail[..|payload|] == payload;
    QuotedIff(tail, |payload| + 1);
    StripCutsMessage(tail, |payload| + 1);
    assert tail[|payload| + 1..] == rest;
  }

  /** A well-escaped payload disappears, and the text around it stays. */
  lemma StripRemovesPayload(prefix: string, payload: string, rest: string)
    requires NoMarker(prefix) && WellEscaped(payload)
    ensures Strip(prefix + (MARKER + (payload + "\"" + rest))) == prefix + PLACEHOLDER + Strip(rest)
  {
    hide Strip;
    StripMessage(payload, rest);
    StripAfterPrefix(prefix, payload + "\"" + rest);
    assert prefix + (PLACEHOLDER + Strip(rest)) == prefix + PLACEHOLDER + Strip(rest);
  }

  lemma {:induction false} StripIsNotEmpty(s: string)
    requires s != ""
    ensures Strip(s) != ""
  {
  }

  // ---------------------------------------------------------------------------
  // Stripping twice

  /** The quote of a marker ends any body it stands in. */
  lemma MarkerClosesBody(body: string)
    requires MARKER <= body
    ensures Quoted(body) == Some(5)
  {
    SpellsMarker(body, 4);
    assert body[..4] == "msg:";
    assert WellEscaped("msg:") by {
      assert "msg:"[1..] == "sg:" && "sg:"[1..] == "g:" && "g:"[1..] == ":" && ":"[1..] == "";
    }
    QuotedIff(body, 5);
  }

  /** So a body without an end has no marker at its start, nor after an escaping backslash. */
  lemma {:induction false} OpenBodyHasNoMarker(body: string)
    requires Quoted(body).None?
    ensures !(MARKER <= body)
    ensures |body| >= 2 && body[0] == '\\' ==> !(MARKER <= body[1..])
  {
    if MARKER <= body {
      MarkerClosesBody(body);
    }
    if |body| >= 2 && body[0] == '\\' && MARKER <= body[1..] {
      assert body[1..][1..] == body[2..];
      SpellsMarker(body[1..], 0);
      MarkerClosesBody(body[1..]);
    }
  }

  lemma StripStep(s: string)
    requires s != "" && MatchAtStart(s).None?
    ensures Strip(s) == [s[0]] + Strip(s[1..])
    ensures Strip(s)[1..] == Strip(s[1..])
  {
  }

  /** Replacements further on do not complete a body that had no end. */
  lemma {:induction false} OpenBodyStaysOpen(body: string)
    requires Quoted(body).None?
    ensures Quoted(Strip(body)).None?
    decreases |body|
  {
    if body != "" {
      OpenBodyHasNoMarker(body);
      StripStep(body);
      if body[0] != '\\' {
        OpenBodyStaysOpen(body[1..]);
      } else if |body| >= 2 {
        StripStep(body[1..]);
        assert body[1..][1..] == body[2..];
        assert Strip(body)[2..] == Strip(body[1..])[1..];
        if body[1] != '\n' {
          OpenBodyStaysOpen(body[2..]);
        }
      }
    }
  }

  /** Where the stripped text spells the rest of a word, the text does too, if the word has the first letter
      of a placeholder only at its beginning. */
  lemma {:induction false} WordIsOriginal(word: string, s: string, k: nat)
    requires k <= |word| && word[k..] <= Strip(s)
    requires forall i | 1 <= i < |word| :: word[i] != PLACEHOLDER[0]
    requires k == 0 ==> MatchAtStart(s).None?
    ensures word[k..] <= s
    decreases |word| - k
  {
    if k < |word| {
      assert word[k..][0] == Strip(s)[0];
      assert MatchAtStart(s).None?;
      StripStep(s);
      assert word[k + 1..] == word[k..][1..] <= Strip(s)[1..];
      WordIsOriginal(word, s[1..], k + 1);
      assert word[k..] == [word[k]] + word[k + 1..];
      assert s == [s[0]] + s[1..];
    }
  }

  /** If the stripped text starts with a marker, so did the text, and its body has no end in either. */
  lemma NoNewMatchAtStart(s: string)
    requires s != "" && MatchAtStart(s).None?
    ensures MatchAtStart(Strip(s)).None?
  {
    if MARKER <= Strip(s) {
      assert MARKER[0..] == MARKER;
      WordIsOriginal(MARKER, s, 0);
      assert s == MARKER + s[5..];
      StripKeepsOpenMarker(s[5..]);
      OpenBodyStaysOpen(s[5..]);
      assert Strip(s)[5..] == Strip(s[5..]);
    }
  }

  /** Stripping leaves nothing to strip. */
  lemma {:induction false} StripIsIdempotent(s: string)
    ensures Strip(Strip(s)) == Strip(s)
    decreases |s|
  {
    if s != "" {
      match MatchAtStart(s)
      case Some(n) =>
        StripIsIdempotent(s[n..]);
        StripPassesPlaceholder(Strip(s[n..]));
      case None =>
        StripIsIdempotent(s[1..]);
        StripStep(s);
        NoNewMatchAtStart(s);
        StripStep(Strip(s));
    }
  }

  // ---------------------------------------------------------------------------
  // What stripping hides

  /** A quote in a well-escaped body follows a backslash. */
  lemma {:induction false} QuoteIsEscaped(body: string, i: nat)
    requires WellEscaped(body) && i < |body| && body[i] == '"'
    ensures i > 0 && body[i - 1] == '\\'
    decreases |body|
  {
    var skip := if body[0] == '\\' then 2 else 1;
    if i >= skip {
      QuoteIsEscaped(body[skip..], i - skip);
    }
  }

  /** Two messages that begin at different places end at different places. */
  lemma MatchesEndApart(s: string, k: nat, n: nat, m: nat)
    requires 0 < k <= |s| && MatchAtStart(s) == Some(n) && MatchAtStart(s[k..]) == Some(m)
    ensures n != k + m
  {
    var body := s[|MARKER|..];
    QuotedIff(body, n - |MARKER|);
    SpellsMarker(s[k..], 3);
    SpellsMarker(s[k..], 4);
    if n == k + m {
      QuoteIsEscaped(body[..n - |MARKER| - 1], k - 1);
    }
  }

  /** A text that starts with a placeholder after stripping starts with a message or a placeholder. */
  lemma PlaceholderIsOriginal(s: string)
    requires s != "" && MatchAtStart(s).None? && PLACEHOLDER <= Strip(s)
    ensures PLACEHOLDER <= s && Strip(s) == PLACEHOLDER + Strip(s[|PLACEHOLDER|..])
  {
    assert PLACEHOLDER[0..] == PLACEHOLDER;
    WordIsOriginal(PLACEHOLDER, s, 0);
    assert s == PLACEHOLDER + s[|PLACEHOLDER|..];
    StripPassesPlaceholder(s[|PLACEHOLDER|..]);
  }

  /** How much of a text becomes a leading placeholder when stripped: a message, or a placeholder. */
  function Leading(s: string): (n: nat)
    ensures n <= |s|
  {
    if MatchAtStart(s).Some? then MatchAtStart(s).value
    else if PLACEHOLDER <= s then |PLACEHOLDER|
    else 0
  }

  lemma StripLeading(s: string)
    ensures Leading(s) > 0 ==> Strip(s) == PLACEHOLDER + Strip(s[Leading(s)..])
    ensures Leading(s) == 0 ==> !(PLACEHOLDER <= Strip(s)) && MatchAtStart(s).None?
  {
    if s != "" && MatchAtStart(s).None? {
      if PLACEHOLDER <= Strip(s) {
        PlaceholderIsOriginal(s);
      } else if PLACEHOLDER <= s {
        assert s == PLACEHOLDER + s[|PLACEHOLDER|..];
        StripPassesPlaceholder(s[|PLACEHOLDER|..]);
      }
    }
  }

  /** What leads at different places ends at different places. */
  lemma LeadingEndApart(s: string, k: nat)
    requires 0 < k <= |s| && Leading(s) > 0 && Leading(s[k..]) > 0
    ensures Leading(s) != k + Leading(s[k..])
  {
    var v := s[k..];
    if MatchAtStart(s).Some? {
      var n := MatchAtStart(s).value;
      QuotedIff(s[|MARKER|..], n - |MARKER|);
      assert s[n - 1] == '"';
      if MatchAtStart(v).Some? {
        MatchesEndApart(s, k, n, MatchAtStart(v).value);
      } else {
        assert v[|PLACEHOLDER| - 1] == PLACEHOLDER[|PLACEHOLDER| - 1];
      }
    } else if MatchAtStart(v).Some? {
      var m := MatchAtStart(v).value;
      QuotedIff(v[|MARKER|..], m - |MARKER|);
      assert v[m - 1] == '"';
      assert s[|PLACEHOLDER| - 1] == PLACEHOLDER[|PLACEHOLDER| - 1];
    }
  }

  lemma SameAfterLeading(s: string, v: string)
    requires Strip(s) == Strip(v) && Leading(s) > 0
    ensures Leading(v) > 0 && Strip(s[Leading(s)..]) == Strip(v[Leading(v)..])
  {
    StripLeading(s);
    StripLeading(v);
    hide Strip, Leading;
    assert PLACEHOLDER <= PLACEHOLDER + Strip(s[Leading(s)..]);
    SameAfter(PLACEHOLDER, Strip(s[Leading(s)..]), Strip(v[Leading(v)..]));
  }

  lemma SameAfterFirst(s: string, v: string)
    requires Strip(s) == Strip(v) && s != "" && v != "" && Leading(s) == Leading(v) == 0
    ensures Strip(s[1..]) == Strip(v[1..])
  {
    StripLeading(s);
    StripLeading(v);
    StripStep(s);
    StripStep(v);
  }

  /** Where stripping goes on after what it reads at place i. */
  function Next(s: string, i: nat): (n: nat)
    requires i < |s|
    ensures i < n <= |s|
  {
    i + if Leading(s[i..]) > 0 then Leading(s[i..]) else 1
  }

  lemma SameNext(s: string, i: nat, j: nat)
    requires i < j < |s| && Strip(s[i..]) == Strip(s[j..])
    ensures Next(s, i) != Next(s, j) && Strip(s[Next(s, i)..]) == Strip(s[Next(s, j)..])
  {
    hide Strip, Leading;
    var a, b := s[i..], s[j..];
    assert a[j - i..] == b;
    assert a[Next(s, i) - i..] == s[Next(s, i)..] && b[Next(s, j) - j..] == s[Next(s, j)..];
    if Leading(a) > 0 {
      SameAfterLeading(a, b);
      LeadingEndApart(a, j - i);
    } else if Leading(b) > 0 {
      SameAfterLeading(b, a);
    } else {
      SameAfterFirst(a, b);
    }
  }

  /** Stripping tells the ends of a text apart: no replacement makes up for what was before. */
  lemma {:induction false} StripTellsEndsApart(s: string, i: nat, j: nat)
    requires i < j <= |s|
    ensures Strip(s[i..]) != Strip(s[j..])
    decreases |s| - i
  {
    if j == |s| {
      StripIsNotEmpty(s[i..]);
    } else if Strip(s[i..]) == Strip(s[j..]) {
      hide Strip, Next;
      SameNext(s, i, j);
      if Next(s, i) < Next(s, j) {
        StripTellsEndsApart(s, Next(s, i), Next(s, j));
      } else {
        StripTellsEndsApart(s, Next(s, j), Next(s, i));
      }
    }
  }

  /** A payload is replaced as a whole, whatever follows it, exactly if it is well escaped. */
  lemma PayloadHiddenIff(prefix: string, payload: string, rest: string)
    requires NoMarker(prefix)
    ensures Strip(prefix + (MARKER + (payload + "\"" + rest))) == prefix + PLACEHOLDER + Strip(rest) <==> WellEscaped(payload)
  {
    var tail := payload + "\"" + rest;
    var end := |payload| + 1;
    StripAfterPrefix(prefix, tail);
    QuotedIff(tail, end);
    assert tail[..|payload|] == payload && tail[end..] == rest;
    hide Strip, Quoted, WellEscaped, NoMarker;
    if Quoted(tail).None? {
      StripKeepsOpenMarker(tail);
      LeaksMarker(prefix, Strip(tail), Strip(rest));
    } else {
      var n := Quoted(tail).value;
      StripCutsMessage(tail, n);
      Regroup(prefix, PLACEHOLDER, Strip(tail[n..]));
      SameAfter(prefix + PLACEHOLDER, Strip(tail[n..]), Strip(rest));
      if n < end {
        StripTellsEndsApart(tail, n, end);
      } else if n > end {
        StripTellsEndsApart(tail, end, n);
      }
    }
  }

  lemma Regroup(a: string, b: string, c: string)
    ensures a + (b + c) == a + b + c
  {
  }

  lemma SameAfter(before: string, a: string, b: string)
    ensures before + a == before + b <==> a == b
  {
    assert (before + a)[|before|..] == a && (before + b)[|before|..] == b;
  }

  lemma LeaksMarker(prefix: string, open: string, rest: string)
    ensures prefix + (MARKER + open) != prefix + PLACEHOLDER + rest
  {
    assert (prefix + (MARKER + open))[|prefix| + 4] == '"';
    assert (prefix + PLACEHOLDER + rest)[|prefix| + 4] == '<';
  }

  // ---------------------------------------------------------------------------
  // Classification

  datatype RfqErr = RfqErr(errClass: string, key: string, stale: bool)

  /** A pattern matches a text or not; patterns are tried in order. */
  datatype Pattern = Pattern(matches: string -> bool, err: RfqErr)

  const UNKNOWN: RfqErr := RfqErr("other", "unknown", false)

  function Classify(patterns: seq<Pattern>, stripped: string): RfqErr {
    if patterns == [] then UNKNOWN
    else if patterns[0].matches(stripped) then patterns[0].err
    else Classify(patterns[1..], stripped)
  }

  lemma {:induction false} FirstMatchDecides(patterns: seq<Pattern>, stripped: string, k: nat)
    requires k < |patterns| && patterns[k].matches(stripped)
    requires forall i | 0 <= i < k :: !patterns[i].matches(stripped)
    ensures Classify(patterns, stripped) == patterns[k].err
  {
    if k > 0 {
      FirstMatchDecides(patterns[1..], stripped, k - 1);
    }
  }

  lemma {:induction false} NoMatchIsUnknown(patterns: seq<Pattern>, stripped: string)
    requires forall i | 0 <= i < |patterns| :: !patterns[i].matches(stripped)
    ensures Classify(patterns, stripped) == RfqErr("other", "unknown", false)
  {
    if patterns != [] {
      NoMatchIsUnknown(patterns[1..], stripped);
    }
  }

  method ClassifyRfqError(patterns: seq<Pattern>, text: string) returns (err: RfqErr)
    ensures err == Classify(patterns, Strip(text))
  {
    var stripped := Strip(text);
    for i := 0 to |patterns|
      invariant Classify(patterns, stripped) == Classify(patterns[i..], stripped)
    {
      if patterns[i].matches(stripped) {
        return patterns[i].err;
      }
    }
    return UNKNOWN;
  }

  /** What a user embeds in a message does not change how the error around it is classified. */
  lemma PayloadCannotChangeClass(patterns: seq<Pattern>, prefix: string, payload1: string, payload2: string, rest: string)
    requires NoMarker(prefix) && WellEscaped(payload1) && WellEscaped(payload2)
    ensures Classify(patterns, Strip(prefix + (MARKER + (payload1 + "\"" + rest))))
            == Classify(patterns, Strip(prefix + (MARKER + (payload2 + "\"" + rest))))
  {
    StripRemovesPayload(prefix, payload1, rest);
    StripRemovesPayload(prefix, payload2, rest);
  }
}
