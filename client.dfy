/** The browser-side helpers of the client (script.js): `Helpers.escapeHtml`, which makes text
    safe to insert into HTML, `getStatusText`, the label of the connection indicator, and the
    reconnect counter of `attemptReconnect`. */
module Client {
  import opened Js

  // ---------------------------------------------------------------------------
  // escapeHtml

  /** `s.replace(/c/g, with)`: every occurrence of the character `c` replaced by `with`. */
  function ReplaceAll(s: string, c: char, with: string): string
    decreases |s|
  {
    if s == [] then [] else (if s[0] == c then with else [s[0]]) + ReplaceAll(s[1..], c, with)
  }

  /** The five replacements of `escapeHtml`, ampersand first. */
  function Chain(s: string): string {
    ReplaceAll(ReplaceAll(ReplaceAll(ReplaceAll(ReplaceAll(s, '&', "&amp;"), '<', "&lt;"), '>', "&gt;"),
                          '"', "&quot;"), '\'', "&#039;")
  }

  /** `escapeHtml(unsafe)`: a falsy argument (`undefined`, `null` or the empty string) gives
      the empty string; a string goes through the five replacements. */
  function EscapeHtml(unsafe: Option<string>): (r: string)
    ensures unsafe.None? ==> r == ""
  {
    if unsafe.None? || unsafe.value == "" then "" else Chain(unsafe.value)
  }

  /** The characters HTML gives a meaning to, apart from the ampersand. */
  predicate Markup(c: char) {
    c == '<' || c == '>' || c == '"' || c == '\''
  }

  /** What one character becomes: its entity, or itself. */
  function Entity(c: char): (r: string)
    ensures |r| > 0
  {
    if c == '&' then "&amp;"
    else if c == '<' then "&lt;"
    else if c == '>' then "&gt;"
    else if c == '"' then "&quot;"
    else if c == '\'' then "&#039;"
    else [c]
  }

  /** An independent definition of the escaping: each character replaced by its entity. */
  function EscapeEach(s: string): string
    decreases |s|
  {
    if s == [] then [] else Entity(s[0]) + EscapeEach(s[1..])
  }

  /** One of the five entities starts at index `i` of `r`. */
  predicate EntityAt(r: string, i: int) {
    || OccursAt(r, "&amp;", i)
    || OccursAt(r, "&lt;", i)
    || OccursAt(r, "&gt;", i)
    || OccursAt(r, "&quot;", i)
    || OccursAt(r, "&#039;", i)
  }

  /** The decoding of the five entities, the inverse of the escaping. */
  function Unescape(r: string): string
    decreases |r|
  {
    if r == [] then []
    else if StartsWith(r, "&amp;") then "&" + Unescape(r[5..])
    else if StartsWith(r, "&lt;") then "<" + Unescape(r[4..])
    else if StartsWith(r, "&gt;") then ">" + Unescape(r[4..])
    else if StartsWith(r, "&quot;") then "\"" + Unescape(r[6..])
    else if StartsWith(r, "&#039;") then "'" + Unescape(r[6..])
    else [r[0]] + Unescape(r[1..])
  }

  lemma {:induction false} ReplaceAllConcat(a: string, b: string, c: char, with: string)
    ensures ReplaceAll(a + b, c, with) == ReplaceAll(a, c, with) + ReplaceAll(b, c, with)
    decreases |a|
  {
    if a == [] {
      assert a + b == b;
    } else {
      assert (a + b)[1..] == a[1..] + b;
      ReplaceAllConcat(a[1..], b, c, with);
    }
  }

  lemma {:induction false} ReplaceAllAbsent(s: string, c: char, with: string)
    requires c !in s
    ensures ReplaceAll(s, c, with) == s
    decreases |s|
  {
    if s != [] {
      ReplaceAllAbsent(s[1..], c, with);
      assert s == [s[0]] + s[1..];
    }
  }

  /** The replacements distribute over concatenation. */
  lemma ChainConcat(a: string, b: string)
    ensures Chain(a + b) == Chain(a) + Chain(b)
  {
    var a1, b1 := ReplaceAll(a, '&', "&amp;"), ReplaceAll(b, '&', "&amp;");
    ReplaceAllConcat(a, b, '&', "&amp;");
    var a2, b2 := ReplaceAll(a1, '<', "&lt;"), ReplaceAll(b1, '<', "&lt;");
    ReplaceAllConcat(a1, b1, '<', "&lt;");
    var a3, b3 := ReplaceAll(a2, '>', "&gt;"), ReplaceAll(b2, '>', "&gt;");
    ReplaceAllConcat(a2, b2, '>', "&gt;");
    var a4, b4 := ReplaceAll(a3, '"', "&quot;"), ReplaceAll(b3, '"', "&quot;");
    ReplaceAllConcat(a3, b3, '"', "&quot;");
    ReplaceAllConcat(a4, b4, '\'', "&#039;");
  }

  /** The escaping of one character, one case per special character. */
  lemma ChainOfAmpersand()
    ensures Chain("&") == "&amp;"
  {
    assert ReplaceAll("&", '&', "&amp;") == "&amp;";
    assert ReplaceAll("&amp;", '<', "&lt;") == "&amp;";
    assert ReplaceAll("&amp;", '>', "&gt;") == "&amp;";
    assert ReplaceAll("&amp;", '"', "&quot;") == "&amp;";
    assert ReplaceAll("&amp;", '\'', "&#039;") == "&amp;";
  }

  lemma ChainOfLess()
    ensures Chain("<") == "&lt;"
  {
    assert ReplaceAll("<", '&', "&amp;") == "<";
    assert ReplaceAll("<", '<', "&lt;") == "&lt;";
    assert ReplaceAll("&lt;", '>', "&gt;") == "&lt;";
    assert ReplaceAll("&lt;", '"', "&quot;") == "&lt;";
    assert ReplaceAll("&lt;", '\'', "&#039;") == "&lt;";
  }

  lemma ChainOfGreater()
    ensures Chain(">") == "&gt;"
  {
    assert ReplaceAll(">", '&', "&amp;") == ">";
    assert ReplaceAll(">", '<', "&lt;") == ">";
    assert ReplaceAll(">", '>', "&gt;") == "&gt;";
    assert ReplaceAll("&gt;", '"', "&quot;") == "&gt;";
    assert ReplaceAll("&gt;", '\'', "&#039;") == "&gt;";
  }

  lemma ChainOfQuote()
    ensures Chain("\"") == "&quot;"
  {
    assert ReplaceAll("\"", '&', "&amp;") == "\"";
    assert ReplaceAll("\"", '<', "&lt;") == "\"";
    assert ReplaceAll("\"", '>', "&gt;") == "\"";
    assert ReplaceAll("\"", '"', "&quot;") == "&quot;";
    assert ReplaceAll("&quot;", '\'', "&#039;") == "&quot;";
  }

  lemma ChainOfApostrophe()
    ensures Chain("'") == "&#039;"
  {
    assert ReplaceAll("'", '&', "&amp;") == "'";
    assert ReplaceAll("'", '<', "&lt;") == "'";
    assert ReplaceAll("'", '>', "&gt;") == "'";
    assert ReplaceAll("'", '"', "&quot;") == "'";
    assert ReplaceAll("'", '\'', "&#039;") == "&#039;";
  }

  lemma ChainOfPlain(c: char)
    requires c != '&' && !Markup(c)
    ensures Chain([c]) == [c]
  {
    ReplaceAllAbsent([c], '&', "&amp;");
    ReplaceAllAbsent([c], '<', "&lt;");
    ReplaceAllAbsent([c], '>', "&gt;");
    ReplaceAllAbsent([c], '"', "&quot;");
    ReplaceAllAbsent([c], '\'', "&#039;");
  }

  /** On one character the replacements yield its entity: an entity produced by an earlier
      replacement holds none of the characters the later ones look for. */
  lemma ChainOfChar(c: char)
    ensures Chain([c]) == Entity(c)
  {
    if c == '&' {
      ChainOfAmpersand();
    } else if c == '<' {
      ChainOfLess();
    } else if c == '>' {
      ChainOfGreater();
    } else if c == '"' {
      ChainOfQuote();
    } else if c == '\'' {
      ChainOfApostrophe();
    } else {
      ChainOfPlain(c);
    }
  }

  /** The chain of replacements is the character-wise escaping. */
  lemma {:induction false} ChainIsEscapeEach(s: string)
    ensures Chain(s) == EscapeEach(s)
    decreases |s|
  {
    if s != [] {
      assert s == [s[0]] + s[1..];
      ChainConcat([s[0]], s[1..]);
      ChainOfChar(s[0]);
      ChainIsEscapeEach(s[1..]);
    }
  }

  /** `escapeHtml` of a string is the character-wise escaping, also for the empty string. */
  lemma EscapeHtmlIsEscapeEach(s: string)
    ensures EscapeHtml(Some(s)) == EscapeEach(s)
  {
    ChainIsEscapeEach(s);
  }

  lemma {:induction false} EscapeEachConcat(a: string, b: string)
    ensures EscapeEach(a + b) == EscapeEach(a) + EscapeEach(b)
    decreases |a|
  {
    if a == [] {
      assert a + b == b;
    } else {
      assert (a + b)[1..] == a[1..] + b;
      EscapeEachConcat(a[1..], b);
    }
  }

  /** Escaping distributes over concatenation. */
  lemma EscapeHtmlConcat(a: string, b: string)
    ensures EscapeHtml(Some(a + b)) == EscapeHtml(Some(a)) + EscapeHtml(Some(b))
  {
    EscapeHtmlIsEscapeEach(a + b);
    EscapeHtmlIsEscapeEach(a);
    EscapeHtmlIsEscapeEach(b);
    EscapeEachConcat(a, b);
  }

  lemma {:induction false} EscapeEachNoMarkup(s: string)
    ensures forall i :: 0 <= i < |EscapeEach(s)| ==> !Markup(EscapeEach(s)[i])
    decreases |s|
  {
    if s != [] {
      EscapeEachNoMarkup(s[1..]);
      var e, rest := Entity(s[0]), EscapeEach(s[1..]);
      forall i | 0 <= i < |e + rest| ensures !Markup((e + rest)[i]) {
        if i >= |e| {
          assert (e + rest)[i] == rest[i - |e|];
        }
      }
    }
  }

  /** No `<`, `>`, `"` or `'` survives the escaping. */
  lemma EscapeHtmlNoMarkup(unsafe: Option<string>)
    ensures forall i :: 0 <= i < |EscapeHtml(unsafe)| ==> !Markup(EscapeHtml(unsafe)[i])
  {
    if unsafe.Some? {
      EscapeHtmlIsEscapeEach(unsafe.value);
      EscapeEachNoMarkup(unsafe.value);
    }
  }

  /** An entity stays where it is when text is put in front of it. */
  lemma EntityShifts(e: string, rest: string, j: int)
    requires EntityAt(rest, j)
    ensures EntityAt(e + rest, |e| + j)
  {
    var r := e + rest;
    forall t: string | OccursAt(rest, t, j) ensures OccursAt(r, t, |e| + j) {
      assert r[|e| + j..|e| + j + |t|] == rest[j..j + |t|];
    }
  }

  /** The only ampersand of an entity is its first character. */
  lemma EntityAmpersand(c: char, r: string, i: int)
    requires 0 <= i < |Entity(c)| && Entity(c)[i] == '&'
    ensures i == 0 && EntityAt(Entity(c) + r, 0)
  {
    var e := Entity(c);
    assert (e + r)[0..|e|] == e;
    assert OccursAt(e + r, e, 0);
  }

  /** Putting an escaped character in front keeps every ampersand at the start of an entity. */
  lemma AmpersandsAfterEntity(c: char, rest: string)
    requires forall i :: 0 <= i < |rest| && rest[i] == '&' ==> EntityAt(rest, i)
    ensures var r := Entity(c) + rest;
      forall i :: 0 <= i < |r| && r[i] == '&' ==> EntityAt(r, i)
  {
    var e := Entity(c);
    forall i | 0 <= i < |e + rest| && (e + rest)[i] == '&' ensures EntityAt(e + rest, i) {
      if i < |e| {
        assert (e + rest)[i] == e[i];
        EntityAmpersand(c, rest, i);
      } else {
        assert (e + rest)[i] == rest[i - |e|];
        EntityShifts(e, rest, i - |e|);
      }
    }
  }

  lemma {:induction false} EscapeEachAmpersands(s: string)
    ensures forall i :: 0 <= i < |EscapeEach(s)| && EscapeEach(s)[i] == '&' ==> EntityAt(EscapeEach(s), i)
    decreases |s|
  {
    if s != [] {
      EscapeEachAmpersands(s[1..]);
      assert EscapeEach(s) == Entity(s[0]) + EscapeEach(s[1..]);
      AmpersandsAfterEntity(s[0], EscapeEach(s[1..]));
    }
  }

  /** Every ampersand in the output begins one of the five entities: the ampersand is
      replaced first, so no entity's ampersand is escaped again. */
  lemma EscapeHtmlAmpersands(unsafe: Option<string>)
    ensures forall i :: 0 <= i < |EscapeHtml(unsafe)| && EscapeHtml(unsafe)[i] == '&' ==>
      EntityAt(EscapeHtml(unsafe), i)
  {
    if unsafe.Some? {
      EscapeHtmlIsEscapeEach(unsafe.value);
      EscapeEachAmpersands(unsafe.value);
    }
  }

  /** Escaping is not idempotent: the ampersand of an entity already in the input, such as
      `&lt;`, is escaped once more, giving `&amp;lt;`. */
  lemma EscapeHtmlOfEntity(name: string)
    requires forall i :: 0 <= i < |name| ==> name[i] != '&' && !Markup(name[i])
    ensures EscapeHtml(Some("&" + name)) == "&amp;" + name
  {
    var amp := "&";
    EscapeHtmlIsEscapeEach(amp + name);
    EscapeEachConcat(amp, name);
    EscapeEachSafe(name);
    assert amp[1..] == [];
    assert EscapeEach(amp) == Entity('&') + EscapeEach([]);
  }

  lemma {:induction false} EscapeEachSafe(s: string)
    requires forall i :: 0 <= i < |s| ==> s[i] != '&' && !Markup(s[i])
    ensures EscapeEach(s) == s
    decreases |s|
  {
    if s != [] {
      EscapeEachSafe(s[1..]);
      assert s == [s[0]] + s[1..];
    }
  }

  /** A string with none of the five special characters comes back unchanged. */
  lemma EscapeHtmlSafe(s: string)
    requires forall i :: 0 <= i < |s| ==> s[i] != '&' && !Markup(s[i])
    ensures EscapeHtml(Some(s)) == s
  {
    EscapeHtmlIsEscapeEach(s);
    EscapeEachSafe(s);
  }

  /** Decoding an entity at the front: each entity is told apart from the others by its
      second character. */
  lemma UnescapeFront(e: string, c: char, t: string)
    requires e in ["&amp;", "&lt;", "&gt;", "&quot;", "&#039;"]
    requires c == (if e == "&amp;" then '&' else if e == "&lt;" then '<' else if e == "&gt;" then '>'
                   else if e == "&quot;" then '"' else '\'')
    ensures Unescape(e + t) == [c] + Unescape(t)
  {
    var r := e + t;
    assert r[..|e|] == e && r[|e|..] == t;
    assert r[1] == e[1];
    forall f | f in ["&amp;", "&lt;", "&gt;", "&quot;", "&#039;"] && f != e
      ensures !StartsWith(r, f)
    {
      if |f| <= |r| {
        assert r[..|f|][1] == r[1];
      }
    }
  }

  /** A character that is not special decodes to itself. */
  lemma UnescapePlain(c: char, t: string)
    requires c != '&'
    ensures Unescape([c] + t) == [c] + Unescape(t)
  {
    var r := [c] + t;
    assert r[0] == c && r[1..] == t;
    forall f | f in ["&amp;", "&lt;", "&gt;", "&quot;", "&#039;"]
      ensures !StartsWith(r, f)
    {
      if |f| <= |r| {
        assert r[..|f|][0] == r[0];
      }
    }
  }

  /** Decoding the entity of a character gives the character back. */
  lemma UnescapeEntity(c: char, t: string)
    ensures Unescape(Entity(c) + t) == [c] + Unescape(t)
  {
    if c == '&' {
      UnescapeFront("&amp;", c, t);
    } else if c == '<' {
      UnescapeFront("&lt;", c, t);
    } else if c == '>' {
      UnescapeFront("&gt;", c, t);
    } else if c == '"' {
      UnescapeFront("&quot;", c, t);
    } else if c == '\'' {
      UnescapeFront("&#039;", c, t);
    } else {
      UnescapePlain(c, t);
    }
  }

  lemma {:induction false} UnescapeEscapeEach(s: string)
    ensures Unescape(EscapeEach(s)) == s
    decreases |s|
  {
    if s != [] {
      UnescapeEntity(s[0], EscapeEach(s[1..]));
      UnescapeEscapeEach(s[1..]);
      assert s == [s[0]] + s[1..];
    }
  }

  /** Escaping loses nothing: decoding the entities recovers the input. */
  lemma EscapeHtmlRoundTrip(s: string)
    ensures Unescape(EscapeHtml(Some(s))) == s
  {
    EscapeHtmlIsEscapeEach(s);
    UnescapeEscapeEach(s);
  }

  // ---------------------------------------------------------------------------
  // getStatusText

  /** `getStatusText`: the indicator label of a connection status. */
  function GetStatusText(status: string): (r: string)
    ensures r != "Unknown" <==> status == "online" || status == "offline" || status == "connecting"
    ensures r == "Connected" <==> status == "online"
    ensures r == "Disconnected" <==> status == "offline"
    ensures r == "Connecting..." <==> status == "connecting"
  {
    if status == "online" then "Connected"
    else if status == "offline" then "Disconnected"
    else if status == "connecting" then "Connecting..."
    else "Unknown"
  }

  // ---------------------------------------------------------------------------
  // The reconnect counter

  /** `maxReconnectAttempts`. */
  const MaxReconnectAttempts: nat := 5

  /** The counter after one `attemptReconnect`: one more while below the maximum. */
  function NextAttempts(attempts: nat): (r: nat)
    ensures attempts < MaxReconnectAttempts ==> r == attempts + 1
    ensures attempts >= MaxReconnectAttempts ==> r == attempts
  {
    if attempts < MaxReconnectAttempts then attempts + 1 else attempts
  }

  /** The counter after `k` calls of `attemptReconnect` starting from `start`. */
  function AttemptsAfter(start: nat, k: nat): nat {
    if k == 0 then start else NextAttempts(AttemptsAfter(start, k - 1))
  }

  /** However often `attemptReconnect` runs, it never takes the counter past the maximum: from
      a count within it, `k` calls give the smaller of `start + k` and the maximum. */
  lemma {:induction false} AttemptsSaturate(start: nat, k: nat)
    requires start <= MaxReconnectAttempts
    ensures AttemptsAfter(start, k) == if start + k <= MaxReconnectAttempts then start + k else MaxReconnectAttempts
  {
    if k > 0 {
      AttemptsSaturate(start, k - 1);
    }
  }

  /** The `reconnectAttempts` field of the client controller. */
  class Reconnector {
    var reconnectAttempts: nat

    constructor ()
      ensures reconnectAttempts == 0
    {
      reconnectAttempts := 0;
    }

    /** `attemptReconnect`: schedules a retry and counts it while below the maximum; the
        delay and the timer are left out. */
    method AttemptReconnect() returns (scheduled: bool)
      modifies this
      ensures scheduled <==> old(reconnectAttempts) < MaxReconnectAttempts
      ensures reconnectAttempts == NextAttempts(old(reconnectAttempts))
      ensures old(reconnectAttempts) <= MaxReconnectAttempts ==> reconnectAttempts <= MaxReconnectAttempts
    {
      scheduled := reconnectAttempts < MaxReconnectAttempts;
      if scheduled {
        reconnectAttempts := reconnectAttempts + 1;
      }
    }

    /** `handleSocketConnect` and `handleSocketReconnect` reset the counter. */
    method Reset()
      modifies this
      ensures reconnectAttempts == 0
    {
      reconnectAttempts := 0;
    }

    /** `handleReconnectAttempt` takes the attempt number socket.io reports. */
    method RecordAttempt(attempt: nat)
      modifies this
      ensures reconnectAttempts == attempt
    {
      reconnectAttempts := attempt;
    }
  }
}
