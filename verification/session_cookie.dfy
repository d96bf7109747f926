/** The session identifier of a request to /api/session
    (webapp/src/pages/api/session.ts, lines 5-6 and the Set-Cookie text of
    lines 13 and 28): it is cut out of the raw `Cookie` header with two
    `split` calls, and a fresh one is made up when that yields nothing. */
module SessionCookie {
  import opened Options
  import opened Text

  /** The text the header is split on. It is matched as a plain substring,
      not as a cookie name. */
  const Marker: string := "sessionId="

  /** The attributes that follow the id in the Set-Cookie header. */
  const CookieAttributes: string := "; Path=/; HttpOnly; SameSite=Lax"

  /** Prefix of every identifier the handler makes up itself. */
  const GeneratedPrefix: string := "session_"

  /** The per-request values the handler draws from its environment:
      `Date.now()`, the text of `Math.random().toString(36)`, the ISO time
      stamp and `process.env.APP_NAME`. */
  datatype Context = Context(
    clockMillis: nat,
    random36: string,
    isoTime: string,
    server: string)

  /** An id that can travel in a cookie and come back unchanged. */
  ghost predicate CookieSafe(id: string) {
    id != [] && ';' !in id && !Contains(id, Marker)
  }

  /** `cookie?.split('sessionId=')[1]?.split(';')[0]`, with the empty
      string (falsy in `||`) and `undefined` both reported as `None`. */
  function ExtractSessionId(cookie: Option<string>): (r: Option<string>)
    ensures r.Some? ==> CookieSafe(r.value)
    ensures cookie.None? ==> r.None?
  {
    match cookie
    case None => None
    case Some(header) =>
      var pieces := Split(header, Marker);
      if |pieces| < 2 then None
      else
        var candidate := Split(pieces[1], ";")[0];
        ContainsChar(candidate, ';');
        PrefixAvoids(pieces[1], Marker, |candidate|);
        if candidate == "" then None else Some(candidate)
  }

  /** The identifier made up from the clock and the random text:
      `session_${Date.now()}_${Math.random().toString(36)}`. */
  function GeneratedId(ctx: Context): (id: string)
    ensures |id| > |GeneratedPrefix| && id[..|GeneratedPrefix|] == GeneratedPrefix
  {
    GeneratedPrefix + Decimal(ctx.clockMillis) + "_" + ctx.random36
  }

  /** The digits right after `session_` are the decimal text of the clock
      reading, followed by '_' and then the random text. */
  lemma GeneratedIdCarriesClock(ctx: Context)
    ensures
      var id := GeneratedId(ctx);
      var n := |Decimal(ctx.clockMillis)|;
      && |GeneratedPrefix| + n < |id|
      && (forall k :: |GeneratedPrefix| <= k < |GeneratedPrefix| + n ==> IsDigit(id[k]))
      && DigitsValue(id[|GeneratedPrefix|..|GeneratedPrefix| + n]) == ctx.clockMillis
      && id[|GeneratedPrefix| + n] == '_'
      && id[|GeneratedPrefix| + n + 1..] == ctx.random36
  {
    var digits := Decimal(ctx.clockMillis);
    var id := GeneratedId(ctx);
    assert id == GeneratedPrefix + digits + "_" + ctx.random36;
    assert id[|GeneratedPrefix|..|GeneratedPrefix| + |digits|] == digits;
    forall k | |GeneratedPrefix| <= k < |GeneratedPrefix| + |digits|
      ensures IsDigit(id[k])
    {
      assert id[k] == digits[k - |GeneratedPrefix|];
    }
    DecimalRoundTrip(ctx.clockMillis);
  }

  /** The id the handler works with: the one from the cookie when there is
      a non-empty one, the generated one otherwise. */
  function ResolveSessionId(cookie: Option<string>, ctx: Context): (id: string)
    ensures ExtractSessionId(cookie).Some? ==> id == ExtractSessionId(cookie).value
    ensures ExtractSessionId(cookie).None? ==> id == GeneratedId(ctx)
  {
    ExtractSessionId(cookie).GetOr(GeneratedId(ctx))
  }

  /** The Set-Cookie header value for `id`. */
  function SetCookieHeader(id: string): string
  {
    Marker + id + CookieAttributes
  }

  /** Sent back as a `Cookie` header, the Set-Cookie text of a cookie-safe
      id yields that id again. */
  lemma SetCookieRoundTrip(id: string)
    requires CookieSafe(id)
    ensures ExtractSessionId(Some(SetCookieHeader(id))) == Some(id)
  {
    assert !Contains("", Marker);
    CookieEchoRoundTrip("", id, CookieAttributes);
    assert "" + Marker + id + CookieAttributes == SetCookieHeader(id);
  }

  /** Characters `Number.prototype.toString(36)` can produce for a value
      in [0, 1). */
  predicate IsBase36Char(c: char) {
    ('0' <= c <= '9') || ('a' <= c <= 'z') || c == '.'
  }

  /** Any occurrence of the marker ends in '='. */
  lemma MarkerEndsInEquals(s: string, i: int)
    requires OccursAt(s, Marker, i)
    ensures s[i + 9] == '='
  {
    assert s[i..i + |Marker|][9] == Marker[9];
  }

  /** Random text as `Math.random().toString(36)` produces it. */
  ghost predicate Base36Text(s: string) {
    forall k :: 0 <= k < |s| ==> IsBase36Char(s[k])
  }

  /** Two occurrences of the marker cannot overlap: the later one would put
      a '=' where the earlier one has a letter of `sessionId`. */
  lemma NoOverlapBefore(s: string, i: int, j: int)
    requires OccursAt(s, Marker, i) && j < i < j + |Marker|
    ensures !OccursAt(s, Marker, j)
  {
    if 0 <= j && j + |Marker| <= |s| {
      assert s[j..j + |Marker|][9] == s[i..i + |Marker|][j + 9 - i];
    }
  }

  /** A string without '=' cannot contain the marker. */
  lemma NoEqualsNoMarker(s: string)
    requires '=' !in s
    ensures !Contains(s, Marker)
  {
    forall i | OccursAt(s, Marker, i)
      ensures false
    {
      MarkerEndsInEquals(s, i);
    }
  }

  /** A generated id survives the cookie round trip whenever the random
      text is what `toString(36)` produces. */
  lemma GeneratedIdIsCookieSafe(ctx: Context)
    requires Base36Text(ctx.random36)
    ensures CookieSafe(GeneratedId(ctx))
  {
    var id := GeneratedId(ctx);
    var digits := Decimal(ctx.clockMillis);
    assert id == GeneratedPrefix + digits + "_" + ctx.random36;
    forall k | 0 <= k < |id|
      ensures id[k] != ';' && id[k] != '='
    {
      if k < |GeneratedPrefix| {
      } else if k < |GeneratedPrefix| + |digits| {
        assert id[k] == digits[k - |GeneratedPrefix|];
      } else if k == |GeneratedPrefix| + |digits| {
      } else {
        assert id[k] == ctx.random36[k - |GeneratedPrefix| - |digits| - 1];
      }
    }
    NoEqualsNoMarker(id);
  }

  /** Under the same condition, the resolved id is always cookie-safe. */
  lemma ResolvedIdIsCookieSafe(cookie: Option<string>, ctx: Context)
    requires Base36Text(ctx.random36)
    ensures CookieSafe(ResolveSessionId(cookie, ctx))
  {
    if ExtractSessionId(cookie).None? {
      GeneratedIdIsCookieSafe(ctx);
    }
  }

  /** The two `split` calls applied to the text after the first marker:
      the result is that text up to the first ';', the next marker or the
      end, whichever comes first. */
  lemma {:induction false} CutAtFirstStop(rest: string, k: int)
    requires 0 <= k <= |rest|
    requires ';' !in rest[..k]
    requires forall j :: 0 <= j < k ==> !OccursAt(rest, Marker, j)
    requires k == |rest| || rest[k] == ';' || OccursAt(rest, Marker, k)
    ensures Split(Split(rest, Marker)[0], ";")[0] == rest[..k]
  {
    var m: int := match Find(rest, Marker)
      case None => |rest|
      case Some(p) => p;
    SplitHead(rest, Marker, m);
    var piece := Split(rest, Marker)[0];
    assert piece == rest[..m];
    assert k <= m;
    assert piece[..k] == rest[..k];
    forall j | 0 <= j < k
      ensures !OccursAt(piece, ";", j)
    {
      CharOccurrence(piece, ';', j);
      assert piece[j] == rest[..k][j];
    }
    if k < |piece| {
      assert k < m;
      assert piece[k] == ';';
      CharOccurrence(piece, ';', k);
    }
    SplitHead(piece, ";", k);
  }

  /** Extraction, stated without `split`: with `i` the first occurrence of
      the marker and `rest` the text after it, the id is `rest` up to the
      first ';', the next marker or the end, whichever comes first; an
      empty id counts as none. */
  lemma {:induction false} ExtractAfterFirstMarker(header: string, i: int, rest: string, k: int)
    requires FirstOccurrence(header, Marker, i)
    requires rest == header[i + |Marker|..]
    requires 0 <= k <= |rest|
    requires ';' !in rest[..k]
    requires forall j :: 0 <= j < k ==> !OccursAt(rest, Marker, j)
    requires k == |rest| || rest[k] == ';' || OccursAt(rest, Marker, k)
    ensures ExtractSessionId(Some(header)) == if k == 0 then None else Some(rest[..k])
  {
    SplitSecond(header, Marker, i);
    CutAtFirstStop(rest, k);
  }

  /** A header without the marker yields no id. */
  lemma ExtractWithoutMarker(header: string)
    requires !Contains(header, Marker)
    ensures ExtractSessionId(Some(header)) == None
  {
    SplitWhole(header, Marker);
  }

  /** The match is on the substring, so a longer cookie name ending in
      `sessionId` also supplies the id. */
  lemma ExtractMatchesInsideLongerName()
    ensures ExtractSessionId(Some("xsessionId=abc")) == Some("abc")
  {
    var header := "xsessionId=abc";
    assert header[1..1 + |Marker|] == Marker;
    assert header[0..|Marker|][0] == 'x';
    assert header[1 + |Marker|..] == "abc";
    assert "abc"[..3] == "abc";
    ExtractAfterFirstMarker(header, 1, "abc", 3);
  }

  /** What the browser sends back: any cookies without the marker, then
      `sessionId=<id>`, then nothing or further cookies after a ';'. The
      handler reads back exactly `id`. */
  lemma {:induction false} CookieEchoRoundTrip(others: string, id: string, tail: string)
    requires !Contains(others, Marker)
    requires CookieSafe(id)
    requires tail == "" || tail[0] == ';'
    ensures ExtractSessionId(Some(others + Marker + id + tail)) == Some(id)
  {
    var header := others + (Marker + id + tail);
    assert header == others + Marker + id + tail;
    var i := |others|;
    assert header[i..i + |Marker|] == Marker;
    // No earlier occurrence: one starting inside `others` either lies in
    // `others` or would need its final '=' inside `sessionId`.
    forall j | 0 <= j < i
      ensures !OccursAt(header, Marker, j)
    {
      if j + |Marker| <= i {
        OccursInLeftPart(others, Marker + id + tail, Marker, j);
        assert !OccursAt(others, Marker, j);
      } else {
        NoOverlapBefore(header, i, j);
      }
    }
    var rest := header[i + |Marker|..];
    assert rest == id + tail;
    assert rest[..|id|] == id;
    ContainsChar(id, ';');
    // No marker starts inside `id`: it would lie in `id`, or reach the ';'
    // that begins `tail`, and the marker has no ';'.
    forall j | 0 <= j < |id|
      ensures !OccursAt(rest, Marker, j)
    {
      if j + |Marker| <= |id| {
        OccursInLeftPart(id, tail, Marker, j);
        assert !OccursAt(id, Marker, j);
      } else if j + |Marker| <= |rest| {
        assert rest[|id|] == ';';
        assert rest[j..j + |Marker|][|id| - j] == rest[|id|];
        assert Marker[|id| - j] != ';';
      }
    }
    ExtractAfterFirstMarker(header, i, rest, |id|);
  }

  /** A visitor whose browser sends back the cookie set by the previous
      response keeps the same id, whatever the clock and random text of the
      new request. */
  lemma EchoedCookieKeepsId(cookie: Option<string>, ctx: Context, ctx': Context)
    requires Base36Text(ctx.random36)
    ensures ResolveSessionId(Some(Marker + ResolveSessionId(cookie, ctx)), ctx') ==
            ResolveSessionId(cookie, ctx)
  {
    var id := ResolveSessionId(cookie, ctx);
    ResolvedIdIsCookieSafe(cookie, ctx);
    assert !Contains("", Marker);
    CookieEchoRoundTrip("", id, "");
    assert "" + Marker + id + "" == Marker + id;
  }
}
