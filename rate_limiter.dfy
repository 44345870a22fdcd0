/** The sliding-window rate limiter of lib/rate_limiter.py.

    `rate_limit_cache` maps an email to the times of its recently admitted
    requests. Every call first authenticates the bearer token, then prunes the
    caller's list to the last `WINDOW_SECONDS`, refuses with 429 when
    `MAX_REQUESTS` remain, and otherwise records the call. `verify_token` and the
    clock are parameters. */
module RateLimiter {
  import opened Wrappers
  import opened Common
  import PyStr

  const MAX_REQUESTS: nat := 2
  /** `timedelta(seconds=WINDOW_SECONDS)` with `WINDOW_SECONDS = 60`. */
  const WINDOW: int := 60 * SECOND

  const MISSING_TOKEN: Failure := HttpError(401, "Missing or invalid token")
  const INVALID_TOKEN: Failure := HttpError(401, "Invalid token")
  /** `payload["email"]` on a payload without that claim. */
  const MISSING_EMAIL: Failure := Unhandled("KeyError")
  const TOO_MANY: Failure := HttpError(429, "Too many requests. Try again later.")

  /** The payload `verify_token` returns, or `None` when it returns nothing. */
  type Claims = map<string, string>

  const BEARER: string := "Bearer "

  /** A header that starts with "Bearer " splits on spaces into "Bearer" and the
      pieces of what follows. */
  lemma BearerSplit(header: string)
    requires PyStr.StartsWith(header, BEARER)
    ensures PyStr.Split(header, " ") == [header[..6]] + PyStr.Split(header[7..], " ")
  {
    assert header[..7] == BEARER;
    assert PyStr.OccursAt(header, " ", 6);
    forall j | 0 <= j < 6 ensures !PyStr.OccursAt(header, " ", j) {
      assert header[j] == BEARER[j];
      assert header[j..j + 1] == [header[j]];
    }
    assert PyStr.FindFrom(header, " ", 0) == 6;
  }

  /** The first piece of `s.split(" ")`: the text up to the first space. */
  lemma FirstPiece(s: string)
    ensures var t := PyStr.Split(s, " ")[0];
      && |t| <= |s| && s[..|t|] == t
      && (|t| == |s| || s[|t|] == ' ')
      && !PyStr.Contains(t, " ")
  {
    PyStr.SplitFirst(s, " ");
    var t := PyStr.Split(s, " ")[0];
    if t != s {
      assert s[|t|..|t| + 1] == " ";
    }
  }

  /** `auth_header.split(" ")[1]` for a header that passed the "Bearer " test:
      the text after "Bearer " up to the next space, if any. */
  function BearerToken(header: string): (t: Option<string>)
    ensures t.Some? <==> PyStr.StartsWith(header, BEARER)
    ensures t.Some? ==>
      && 7 + |t.value| <= |header|
      && header[..7 + |t.value|] == BEARER + t.value
      && (7 + |t.value| == |header| || header[7 + |t.value|] == ' ')
      && !PyStr.Contains(t.value, " ")
  {
    if PyStr.StartsWith(header, BEARER) then
      BearerSplit(header);
      var token := PyStr.Split(header, " ")[1];
      assert token == PyStr.Split(header[7..], " ")[0];
      FirstPiece(header[7..]);
      assert header[..7 + |token|] == header[..7] + header[7..][..|token|];
      Some(token)
    else
      None
  }

  /** A header made of "Bearer " and one space-free word carries that word. */
  lemma BearerTokenOfWord(word: string)
    requires ' ' !in word
    ensures BearerToken(BEARER + word) == Some(word)
  {
    PyStr.ContainsChar(word, ' ');
    var header := BEARER + word;
    assert PyStr.StartsWith(header, BEARER);
    BearerSplit(header);
    assert header[7..] == word;
    PyStr.SplitAbsent(word, " ");
  }

  /** The authentication half of `rate_limiter`: a missing or non-Bearer header
      and a token `verify_token` rejects both give 401; a payload without an
      "email" claim raises; otherwise the caller is the payload's email. */
  function Authenticate(header: Option<string>, verifyToken: string -> Option<Claims>): (r: Result<string, Failure>)
    ensures (header.None? || BearerToken(header.value).None?) <==> r == Failure(MISSING_TOKEN)
    ensures r == Failure(INVALID_TOKEN) <==>
      && header.Some? && BearerToken(header.value).Some?
      && var payload := verifyToken(BearerToken(header.value).value);
         payload.None? || payload.value == map[]
    ensures r == Failure(MISSING_EMAIL) <==>
      && header.Some? && BearerToken(header.value).Some?
      && var payload := verifyToken(BearerToken(header.value).value);
         payload.Some? && payload.value != map[] && "email" !in payload.value
    ensures r.Success? <==>
      && header.Some? && BearerToken(header.value).Some?
      && var payload := verifyToken(BearerToken(header.value).value);
         payload.Some? && "email" in payload.value
    ensures r.Success? ==> r.value == verifyToken(BearerToken(header.value).value).value["email"]
  {
    if header.None? || header.value == "" then Failure(MISSING_TOKEN)
    else match BearerToken(header.value)
      case None => Failure(MISSING_TOKEN)
      case Some(token) =>
        var payload := verifyToken(token);
        if payload.None? || payload.value == map[] then Failure(INVALID_TOKEN)
        else if "email" !in payload.value then Failure(MISSING_EMAIL)
        else Success(payload.value["email"])
  }

  /** A bearer header whose token carries an email claim authenticates as that
      email. */
  lemma SignedIn(word: string, email: string, verifyToken: string -> Option<Claims>)
    requires ' ' !in word
    requires verifyToken(word) == Some(map["email" := email])
    ensures Authenticate(Some(BEARER + word), verifyToken) == Success(email)
  {
    BearerTokenOfWord(word);
    assert "email" in verifyToken(word).value;
  }

  /** The caller's list as stored, or the empty list a first call creates. */
  function Window(cache: map<string, seq<Instant>>, email: string): seq<Instant> {
    if email in cache then cache[email] else []
  }

  /** The pruning comprehension: keep, in order, the times less than a window
      old. Exactly the recent times survive, and nothing is dropped only when
      every time is recent. */
  function Recent(ts: seq<Instant>, now: Instant): (r: seq<Instant>)
    ensures |r| <= |ts|
    ensures forall t :: t in r <==> t in ts && now - t < WINDOW
    ensures |r| == |ts| <==> forall i :: 0 <= i < |ts| ==> now - ts[i] < WINDOW
  {
    if ts == [] then []
    else
      var rest := Recent(ts[..|ts| - 1], now);
      var last := ts[|ts| - 1];
      assert ts == ts[..|ts| - 1] + [last];
      if now - last < WINDOW then rest + [last] else rest
  }

  /** Once the oldest admitted request of a full window is a window old, the
      next call is admitted again. */
  lemma ReopensAfterWindow(ts: seq<Instant>, i: nat, now: Instant)
    requires |ts| <= MAX_REQUESTS
    requires i < |ts| && now - ts[i] >= WINDOW
    ensures |Recent(ts, now)| < MAX_REQUESTS
  {
  }

  /** Within one window, a full list stays full: nothing is pruned from it. */
  lemma StaysFullWithinWindow(ts: seq<Instant>, now: Instant)
    requires |ts| == MAX_REQUESTS
    requires forall i :: 0 <= i < |ts| ==> now - ts[i] < WINDOW
    ensures Recent(ts, now) == ts
  {
    var r := Recent(ts, now);
    var rest := Recent(ts[..|ts| - 1], now);
    assert ts[..|ts| - 1][..|ts[..|ts| - 1]| - 1] == ts[..0];
    assert rest == [ts[0]];
  }

  class Limiter {
    /** `rate_limit_cache` */
    var cache: map<string, seq<Instant>>

    /** No caller ever has more than `MAX_REQUESTS` times on record. */
    ghost predicate Valid()
      reads this
    {
      forall e :: e in cache ==> |cache[e]| <= MAX_REQUESTS
    }

    constructor ()
      ensures Valid() && cache == map[]
    {
      cache := map[];
    }

    /** `rate_limiter(request)`. A call that fails authentication changes
        nothing. Otherwise only the caller's entry changes: it is created if
        absent and replaced by its pruned list; a refused call stops there (so
        it does not extend the lockout), an admitted one appends `now`. */
    method RateLimit(header: Option<string>, verifyToken: string -> Option<Claims>, now: Instant)
      returns (r: Outcome<Failure>)
      requires Valid()
      modifies this
      ensures Valid()
      ensures Authenticate(header, verifyToken).Failure? ==>
        r == Fail(Authenticate(header, verifyToken).error) && cache == old(cache)
      ensures Authenticate(header, verifyToken).Success? ==>
        var email := Authenticate(header, verifyToken).value;
        var kept := Recent(Window(old(cache), email), now);
        && (r == Pass <==> |kept| < MAX_REQUESTS)
        && (r != Pass ==> r == Fail(TOO_MANY))
        && cache == old(cache)[email := if |kept| < MAX_REQUESTS then kept + [now] else kept]
    {
      var auth := Authenticate(header, verifyToken);
      if auth.Failure? {
        return Fail(auth.error);
      }
      var email := auth.value;
      if email !in cache {
        cache := cache[email := []];
      }
      var window := cache[email];
      var kept: seq<Instant> := [];
      var i := 0;
      while i < |window|
        invariant 0 <= i <= |window|
        invariant kept == Recent(window[..i], now)
      {
        assert window[..i + 1][..i] == window[..i];
        if now - window[i] < WINDOW {
          kept := kept + [window[i]];
        }
        i := i + 1;
      }
      assert window[..|window|] == window;
      cache := cache[email := kept];
      if |kept| >= MAX_REQUESTS {
        return Fail(TOO_MANY);
      }
      cache := cache[email := cache[email] + [now]];
      r := Pass;
    }
  }

  /** A call from a signed-in caller, stated without the authentication step:
      only the caller's entry changes, as `RateLimit` promises. */
  method Call(limiter: Limiter, word: string, email: string, verifyToken: string -> Option<Claims>, now: Instant)
    returns (r: Outcome<Failure>)
    requires limiter.Valid()
    requires ' ' !in word && verifyToken(word) == Some(map["email" := email])
    modifies limiter
    ensures limiter.Valid()
    ensures var kept := Recent(Window(old(limiter.cache), email), now);
      && (r == Pass <==> |kept| < MAX_REQUESTS)
      && (r != Pass ==> r == Fail(TOO_MANY))
      && limiter.cache == old(limiter.cache)[email := if |kept| < MAX_REQUESTS then kept + [now] else kept]
  {
    SignedIn(word, email, verifyToken);
    r := limiter.RateLimit(Some(BEARER + word), verifyToken, now);
  }

  /** Three calls from one identity within a minute are admitted, admitted and
      refused; a call a full window after the first is admitted again, and
      another identity is never affected. */
  method Burst(email: string, other: string, verifyToken: string -> Option<Claims>, t: Instant)
    returns (first: Outcome<Failure>, second: Outcome<Failure>, third: Outcome<Failure>,
             later: Outcome<Failure>, stranger: Outcome<Failure>)
    requires verifyToken("alice") == Some(map["email" := email])
    requires verifyToken("bob") == Some(map["email" := other])
    requires email != other
    ensures first == Pass && second == Pass && third == Fail(TOO_MANY)
    ensures later == Pass && stranger == Pass
  {
    var limiter := new Limiter();
    assert Window(limiter.cache, email) == [] && Recent([], t) == [];
    first := Call(limiter, "alice", email, verifyToken, t);
    assert [] + [t] == [t];
    assert limiter.cache == map[email := [t]];
    assert Recent([t], t + SECOND) == [t] by {
      assert [t][..0] == [];
    }
    assert Window(limiter.cache, email) == [t];
    second := Call(limiter, "alice", email, verifyToken, t + SECOND);
    assert [t] + [t + SECOND] == [t, t + SECOND];
    assert limiter.cache == map[email := [t, t + SECOND]];
    third, stranger, later := AfterTwo(limiter, email, other, verifyToken, t);
  }

  /** The rest of `Burst`, once the first identity's window holds two calls:
      a third call within the minute is refused, the other identity is
      admitted, and the first one is admitted again a window after its first
      call. */
  method AfterTwo(limiter: Limiter, email: string, other: string, verifyToken: string -> Option<Claims>, t: Instant)
    returns (third: Outcome<Failure>, stranger: Outcome<Failure>, later: Outcome<Failure>)
    requires limiter.Valid() && limiter.cache == map[email := [t, t + SECOND]]
    requires verifyToken("alice") == Some(map["email" := email])
    requires verifyToken("bob") == Some(map["email" := other])
    requires email != other
    modifies limiter
    ensures third == Fail(TOO_MANY) && stranger == Pass && later == Pass
  {
    StaysFullWithinWindow([t, t + SECOND], t + 2 * SECOND);
    third := Call(limiter, "alice", email, verifyToken, t + 2 * SECOND);
    assert limiter.cache == map[email := [t, t + SECOND]];
    stranger := Call(limiter, "bob", other, verifyToken, t + 2 * SECOND);
    assert Window(limiter.cache, email) == [t, t + SECOND];
    ReopensAfterWindow([t, t + SECOND], 0, t + WINDOW);
    later := Call(limiter, "alice", email, verifyToken, t + WINDOW);
  }
}
