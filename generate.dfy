/** The decision logic of generate.py, the playlist generator: the OAuth token
    lifecycle over the `tokens` table, the artist filter, the dedup guard over
    the `songs` table, the search-result shaping, the playlist pick, the
    status test and the normalisation of scraped text.

    The two sqlite tables are sequences held by a `Store`; every HTTP exchange
    is a function parameter; time is an integer count of microseconds passed
    in by the caller. */
module Generate {
  import opened Wrappers
  import opened PyStr

  /** The Python exceptions the modelled code can raise. */
  datatype Error = KeyError(key: string) | IndexError

  // ---------------------------------------------------------------------------
  // Token validity

  /** One hour, in microseconds. */
  const OneHour: int := 3_600_000_000

  /** check_token_validity: a token added at `addTime` is still usable at `now`
      when it is strictly younger than one hour. */
  predicate TokenValid(now: int, addTime: int): (valid: bool)
    ensures addTime >= now ==> valid
    ensures now >= addTime + OneHour ==> !valid
  {
    now - addTime < OneHour
  }

  /** The boundary is strict: a token exactly one hour old is expired, one a
      microsecond younger is not. */
  lemma OneHourOldIsExpired(addTime: int)
    ensures !TokenValid(addTime + OneHour, addTime)
    ensures TokenValid(addTime + OneHour - 1, addTime)
  {
  }

  /** Once expired, a token stays expired. */
  lemma ExpiryIsPermanent(addTime: int, now: int, later: int)
    requires now <= later && !TokenValid(now, addTime)
    ensures !TokenValid(later, addTime)
  {
  }

  // ---------------------------------------------------------------------------
  // The token table

  /** A row of the `tokens` table. */
  datatype TokenRow = TokenRow(accessToken: string, tokenType: string, scope: string,
                               expiresIn: int, refreshToken: string, addTime: int)

  /** The two grants posted to the token endpoint. */
  datatype TokenRequest = AuthorizationCodeGrant(code: string) | RefreshTokenGrant(refreshToken: string)

  /** The decoded JSON body of a token response; a key may be absent. */
  datatype TokenResponse = TokenResponse(accessToken: Option<string>, tokenType: Option<string>,
                                         scope: Option<string>, expiresIn: Option<int>,
                                         refreshToken: Option<string>)

  /** The row an exchange inserts. The columns are read from the response in
      order, so a missing key raises KeyError for the first one absent and
      nothing is inserted; the refresh token comes from the response after a
      code exchange and from the old row after a refresh. */
  function NewRow(resp: TokenResponse, refreshToken: Option<string>, now: int): (r: Result<TokenRow, Error>)
    ensures r.Success? <==> resp.accessToken.Some? && resp.tokenType.Some? && resp.scope.Some?
                            && resp.expiresIn.Some? && refreshToken.Some?
    ensures r.Success? ==> r.value.accessToken == resp.accessToken.value && r.value.tokenType == resp.tokenType.value
                           && r.value.scope == resp.scope.value && r.value.expiresIn == resp.expiresIn.value
                           && r.value.refreshToken == refreshToken.value && r.value.addTime == now
    ensures resp.accessToken.None? ==> r == Failure(KeyError("access_token"))
    ensures r.Failure? ==> r.error.KeyError?
  {
    if resp.accessToken.None? then Failure(KeyError("access_token"))
    else if resp.tokenType.None? then Failure(KeyError("token_type"))
    else if resp.scope.None? then Failure(KeyError("scope"))
    else if resp.expiresIn.None? then Failure(KeyError("expires_in"))
    else if refreshToken.None? then Failure(KeyError("refresh_token"))
    else Success(TokenRow(resp.accessToken.value, resp.tokenType.value, resp.scope.value,
                          resp.expiresIn.value, refreshToken.value, now))
  }

  /** `SELECT ... FROM tokens ORDER BY add_time DESC` then `fetchone()`: a row
      with the largest add_time, or None for an empty table. Among rows with
      equal add_time the one inserted last is taken. */
  function Latest(rows: seq<TokenRow>): (r: Option<TokenRow>)
    ensures r.None? <==> rows == []
    ensures r.Some? ==> r.value in rows
    ensures r.Some? ==> forall i :: 0 <= i < |rows| ==> rows[i].addTime <= r.value.addTime
    decreases |rows|
  {
    if rows == [] then None
    else
      var last := rows[|rows| - 1];
      match Latest(rows[..|rows| - 1])
      case None => Some(last)
      case Some(best) => if best.addTime <= last.addTime then Some(last) else Some(best)
  }

  /** A row at least as recent as every row already there becomes the latest. */
  lemma LatestAfterAppend(rows: seq<TokenRow>, row: TokenRow)
    requires forall i :: 0 <= i < |rows| ==> rows[i].addTime <= row.addTime
    ensures Latest(rows + [row]) == Some(row)
  {
    assert (rows + [row])[..|rows|] == rows;
  }

  /** What a token operation returns, and the token table after it. */
  datatype Step<T> = Step(result: Result<T, Error>, tokens: seq<TokenRow>)

  /** fetch_access_token: post the authorization code, insert the row built
      from the response, and answer with the latest row of the table. */
  function ExchangeCode(tokens: seq<TokenRow>, authCode: string, now: int,
                        post: TokenRequest -> TokenResponse): Step<TokenRow>
  {
    var resp := post(AuthorizationCodeGrant(authCode));
    match NewRow(resp, resp.refreshToken, now)
    case Failure(e) => Step(Failure(e), tokens)
    case Success(row) => Step(Success(Latest(tokens + [row]).value), tokens + [row])
  }

  /** fetch_refreshed_token: post the refresh token, insert a row that keeps
      that refresh token, and answer with the response's access token. */
  function Refresh(tokens: seq<TokenRow>, refreshToken: string, now: int,
                   post: TokenRequest -> TokenResponse): Step<string>
  {
    var resp := post(RefreshTokenGrant(refreshToken));
    match NewRow(resp, Some(refreshToken), now)
    case Failure(e) => Step(Failure(e), tokens)
    case Success(row) => Step(Success(resp.accessToken.value), tokens + [row])
  }

  /** get_access_token: the decision over the latest row. */
  function AccessTokenStep(tokens: seq<TokenRow>, authCode: string, now: int,
                           post: TokenRequest -> TokenResponse): Step<string>
  {
    match Latest(tokens)
    case None =>
      var s := ExchangeCode(tokens, authCode, now, post);
      Step(if s.result.Success? then Success(s.result.value.accessToken) else Failure(s.result.error), s.tokens)
    case Some(row) =>
      if !TokenValid(now, row.addTime) then Refresh(tokens, row.refreshToken, now, post)
      else Step(Success(row.accessToken), tokens)
  }

  /** The token table is append-only: a call adds at most one row and never
      alters the rows already there; a failed call adds none. */
  lemma TokensAppendOnly(tokens: seq<TokenRow>, authCode: string, now: int,
                         post: TokenRequest -> TokenResponse)
    ensures var s := AccessTokenStep(tokens, authCode, now, post);
      |tokens| <= |s.tokens| <= |tokens| + 1 && s.tokens[..|tokens|] == tokens
      && (s.result.Failure? ==> s.tokens == tokens)
  {
  }

  /** A still-valid latest row is answered from the table: its access token
      is returned, no request is made and the table is unchanged. */
  lemma ValidTokenIsReused(tokens: seq<TokenRow>, authCode: string, now: int,
                           post: TokenRequest -> TokenResponse)
    requires tokens != [] && TokenValid(now, Latest(tokens).value.addTime)
    ensures AccessTokenStep(tokens, authCode, now, post) == Step(Success(Latest(tokens).value.accessToken), tokens)
  {
  }

  /** An expired latest row is refreshed with its own refresh token: exactly
      one row is appended, it keeps the old refresh token whatever the
      response says, it is stamped `now`, and the response's access token is
      returned. */
  lemma ExpiredTokenIsRefreshed(tokens: seq<TokenRow>, authCode: string, now: int,
                                post: TokenRequest -> TokenResponse)
    requires tokens != [] && !TokenValid(now, Latest(tokens).value.addTime)
    ensures var prev := Latest(tokens).value;
      var resp := post(RefreshTokenGrant(prev.refreshToken));
      var s := AccessTokenStep(tokens, authCode, now, post);
      NewRow(resp, Some(prev.refreshToken), now).Success? ==>
        && |s.tokens| == |tokens| + 1 && s.tokens[..|tokens|] == tokens
        && s.tokens[|tokens|].refreshToken == prev.refreshToken
        && s.tokens[|tokens|].accessToken == resp.accessToken.value
        && s.tokens[|tokens|].addTime == now
        && s.result == Success(resp.accessToken.value)
  {
    var row := Latest(tokens).value;
    var resp := post(RefreshTokenGrant(row.refreshToken));
    match NewRow(resp, Some(row.refreshToken), now)
    case Failure(_) =>
    case Success(newRow) =>
      assert (tokens + [newRow])[..|tokens|] == tokens;
  }

  /** With an empty table the authorization code is exchanged: exactly one
      row, built from the response, is appended and its access token is
      returned. */
  lemma EmptyTableExchangesCode(authCode: string, now: int, post: TokenRequest -> TokenResponse)
    ensures var resp := post(AuthorizationCodeGrant(authCode));
      var s := AccessTokenStep([], authCode, now, post);
      NewRow(resp, resp.refreshToken, now).Success? ==>
        && s.tokens == [NewRow(resp, resp.refreshToken, now).value]
        && s.tokens[0].refreshToken == resp.refreshToken.value
        && s.result == Success(resp.accessToken.value)
  {
    var resp := post(AuthorizationCodeGrant(authCode));
    match NewRow(resp, resp.refreshToken, now)
    case Failure(_) =>
    case Success(row) => LatestAfterAppend([], row);
  }

  /** A row stamped `now`, appended to a table whose rows are no newer, is
      served as it is by the next call at the same instant. */
  lemma FreshRowIsServed(tokens: seq<TokenRow>, row: TokenRow, authCode: string, now: int,
                         post: TokenRequest -> TokenResponse)
    requires forall i :: 0 <= i < |tokens| ==> tokens[i].addTime <= now
    requires row.addTime == now
    ensures AccessTokenStep(tokens + [row], authCode, now, post) == Step(Success(row.accessToken), tokens + [row])
  {
    LatestAfterAppend(tokens, row);
  }

  /** The token returned is the access token of the latest row of the table
      afterwards, even when a row is stamped after `now`: such a row is still
      valid and is served as it is. */
  lemma ReturnedTokenIsLatest(tokens: seq<TokenRow>, authCode: string, now: int,
                              post: TokenRequest -> TokenResponse)
    ensures var s := AccessTokenStep(tokens, authCode, now, post);
      s.result.Success? ==> Latest(s.tokens).Some? && Latest(s.tokens).value.accessToken == s.result.value
  {
    match Latest(tokens)
    case None =>
      var resp := post(AuthorizationCodeGrant(authCode));
      match NewRow(resp, resp.refreshToken, now) {
        case Failure(_) =>
        case Success(row) => LatestAfterAppend(tokens, row);
      }
    case Some(row) =>
      if !TokenValid(now, row.addTime) {
        var resp := post(RefreshTokenGrant(row.refreshToken));
        match NewRow(resp, Some(row.refreshToken), now)
        case Failure(_) =>
        case Success(newRow) => LatestAfterAppend(tokens, newRow);
      }
  }

  /** A second call at the same instant is answered from the table: after a
      successful call, calling again returns the same token, makes no
      request and leaves the table as it is. */
  lemma SecondCallIsServedFromTable(tokens: seq<TokenRow>, authCode: string, now: int,
                                    post: TokenRequest -> TokenResponse,
                                    authCode2: string, post2: TokenRequest -> TokenResponse)
    ensures var s := AccessTokenStep(tokens, authCode, now, post);
      s.result.Success? ==> AccessTokenStep(s.tokens, authCode2, now, post2) == Step(s.result, s.tokens)
  {
    match Latest(tokens)
    case None =>
      var resp := post(AuthorizationCodeGrant(authCode));
      match NewRow(resp, resp.refreshToken, now) {
        case Failure(_) =>
        case Success(row) =>
          assert tokens == [];
          FreshRowIsServed(tokens, row, authCode2, now, post2);
      }
    case Some(row) =>
      if !TokenValid(now, row.addTime) {
        var resp := post(RefreshTokenGrant(row.refreshToken));
        match NewRow(resp, Some(row.refreshToken), now)
        case Failure(_) =>
        case Success(newRow) => FreshRowIsServed(tokens, newRow, authCode2, now, post2);
      }
  }

  // ---------------------------------------------------------------------------
  // Artist filter

  /** A (song, artist) pair, as scraped and as stored in the `songs` table. */
  datatype Pair = Pair(song: string, artist: string)

  /** The separator before a featured artist: a no-break space, then "feat. ". */
  const Feat: string := "\U{A0}feat. "

  /** The separator between co-credited artists. */
  const Amp: string := "&"

  /** `[art.split('&') for art in artist.split('\xa0feat. ')]`. */
  function FeatGroups(artist: string): seq<seq<string>>
  {
    var parts := Split(artist, Feat);
    seq(|parts|, j requires 0 <= j < |parts| => Split(parts[j], Amp))
  }

  /** One pair per name of a group, its artist right-stripped. */
  function Credit(song: string, names: seq<string>): seq<Pair>
  {
    seq(|names|, k requires 0 <= k < |names| => Pair(song, RStrip(names[k])))
  }

  /** The pairs of every group, group by group. */
  function Credits(song: string, groups: seq<seq<string>>): seq<Pair>
  {
    if groups == [] then []
    else Credits(song, groups[..|groups| - 1]) + Credit(song, groups[|groups| - 1])
  }

  /** The candidate pairs one scraped pair expands to. */
  function Candidates(p: Pair): seq<Pair>
  {
    Credits(p.song, FeatGroups(p.artist))
  }

  /** `cleaned_list` after the loops of select_desirable_songs. */
  function Cleaned(pairs: seq<Pair>): seq<Pair>
  {
    if pairs == [] then []
    else Cleaned(pairs[..|pairs| - 1]) + Candidates(pairs[|pairs| - 1])
  }

  /** `[a.lower() for a in DESIRED_ARTISTS]`. */
  function LowerAll(names: seq<string>): seq<string>
  {
    seq(|names|, i requires 0 <= i < |names| => Lower(names[i]))
  }

  /** The final comprehension: the pairs whose artist is in the allow-list. */
  function Desirable(cleaned: seq<Pair>, allow: seq<string>): seq<Pair>
  {
    if cleaned == [] then []
    else
      var last := cleaned[|cleaned| - 1];
      Desirable(cleaned[..|cleaned| - 1], allow) + (if last.artist in allow then [last] else [])
  }

  lemma CreditAppendsName(song: string, names: seq<string>, k: nat)
    requires k < |names|
    ensures Credit(song, names[..k + 1]) == Credit(song, names[..k]) + [Pair(song, RStrip(names[k]))]
  {
    assert names[..k + 1][..k] == names[..k];
  }

  lemma CreditsAppendGroup(song: string, groups: seq<seq<string>>, j: nat)
    requires j < |groups|
    ensures Credits(song, groups[..j + 1]) == Credits(song, groups[..j]) + Credit(song, groups[j])
  {
    assert groups[..j + 1][..j] == groups[..j];
  }

  lemma CleanedGrows(pairs: seq<Pair>, i: nat)
    requires i < |pairs|
    ensures Cleaned(pairs[..i + 1]) == Cleaned(pairs[..i]) + Candidates(pairs[i])
  {
    assert pairs[..i + 1][..i] == pairs[..i];
  }

  /** select_desirable_songs. */
  method SelectDesirableSongs(pairs: seq<Pair>, desired: seq<string>) returns (r: seq<Pair>)
    ensures r == Desirable(Cleaned(pairs), LowerAll(desired))
  {
    var cleaned: seq<Pair> := [];
    for i := 0 to |pairs|
      invariant cleaned == Cleaned(pairs[..i])
    {
      var song, artist := pairs[i].song, pairs[i].artist;
      var featuringArtists := FeatGroups(artist);
      cleaned := AppendCredits(cleaned, song, featuringArtists);
      CleanedGrows(pairs, i);
    }
    assert pairs[..|pairs|] == pairs;
    r := Desirable(cleaned, LowerAll(desired));
  }

  /** The two inner loops of select_desirable_songs: append one pair per name
      of every group to `cleaned`. */
  method AppendCredits(cleaned: seq<Pair>, song: string, groups: seq<seq<string>>) returns (out: seq<Pair>)
    ensures out == cleaned + Credits(song, groups)
  {
    out := cleaned;
    for j := 0 to |groups|
      invariant out == cleaned + Credits(song, groups[..j])
    {
      var art := groups[j];
      ghost var before := out;
      for k := 0 to |art|
        invariant out == before + Credit(song, art[..k])
      {
        out := out + [Pair(song, RStrip(art[k]))];
        CreditAppendsName(song, art, k);
      }
      assert art[..|art|] == art;
      CreditsAppendGroup(song, groups, j);
    }
    assert groups[..|groups|] == groups;
  }

  /** A pair survives the final filter exactly when it was a candidate and
      its artist is in the allow-list. */
  lemma {:induction false} DesirableMembership(cleaned: seq<Pair>, allow: seq<string>, x: Pair)
    ensures x in Desirable(cleaned, allow) <==> x in cleaned && x.artist in allow
    decreases |cleaned|
  {
    if cleaned != [] {
      var init := cleaned[..|cleaned| - 1];
      DesirableMembership(init, allow, x);
      assert cleaned == init + [cleaned[|cleaned| - 1]];
    }
  }

  /** The filter works pair by pair, keeping order. */
  lemma {:induction false} DesirableConcat(a: seq<Pair>, b: seq<Pair>, allow: seq<string>)
    ensures Desirable(a + b, allow) == Desirable(a, allow) + Desirable(b, allow)
    decreases |b|
  {
    if b != [] {
      var init := b[..|b| - 1];
      assert (a + b)[..|a + b| - 1] == a + init;
      DesirableConcat(a, init, allow);
    } else {
      assert a + b == a;
    }
  }

  /** The expansion works pair by pair, keeping order. */
  lemma {:induction false} CleanedConcat(a: seq<Pair>, b: seq<Pair>)
    ensures Cleaned(a + b) == Cleaned(a) + Cleaned(b)
    decreases |b|
  {
    if b != [] {
      var init := b[..|b| - 1];
      assert (a + b)[..|a + b| - 1] == a + init;
      CleanedConcat(a, init);
    } else {
      assert a + b == a;
    }
  }

  /** Output order follows input order: selecting from `a + b` selects from
      `a`, then from `b`. */
  lemma SelectionKeepsOrder(a: seq<Pair>, b: seq<Pair>, desired: seq<string>)
    ensures Desirable(Cleaned(a + b), LowerAll(desired))
         == Desirable(Cleaned(a), LowerAll(desired)) + Desirable(Cleaned(b), LowerAll(desired))
  {
    CleanedConcat(a, b);
    DesirableConcat(Cleaned(a), Cleaned(b), LowerAll(desired));
  }

  lemma CreditSongs(song: string, names: seq<string>)
    ensures forall x :: x in Credit(song, names) ==> x.song == song
  {
  }

  lemma {:induction false} CreditsSongs(song: string, groups: seq<seq<string>>)
    ensures forall x :: x in Credits(song, groups) ==> x.song == song
    decreases |groups|
  {
    if groups != [] {
      CreditsSongs(song, groups[..|groups| - 1]);
      CreditSongs(song, groups[|groups| - 1]);
    }
  }

  /** The blocks `f(p)` of the pairs, joined in order. `Cleaned` is
      `Expand(pairs, Candidates)` (see CleanedIsExpand); this second
      definition exists only so that membership can be proved with the
      expansion left uninterpreted, which keeps that proof small. */
  function Expand(pairs: seq<Pair>, f: Pair -> seq<Pair>): seq<Pair>
  {
    if pairs == [] then [] else Expand(pairs[..|pairs| - 1], f) + f(pairs[|pairs| - 1])
  }

  /** `Cleaned` joins the candidates of the pairs in order. */
  lemma {:induction false} CleanedIsExpand(pairs: seq<Pair>)
    ensures Cleaned(pairs) == Expand(pairs, Candidates)
    decreases |pairs|
  {
    if pairs != [] {
      CleanedIsExpand(pairs[..|pairs| - 1]);
    }
  }

  /** An element of joined blocks comes from the block of some pair. */
  lemma {:induction false} ExpandMembership(pairs: seq<Pair>, f: Pair -> seq<Pair>, x: Pair)
    ensures x in Expand(pairs, f) <==> exists i :: 0 <= i < |pairs| && x in f(pairs[i])
    decreases |pairs|
  {
    if pairs != [] {
      var init := pairs[..|pairs| - 1];
      ExpandMembership(init, f, x);
      if x in Expand(init, f) {
        var i :| 0 <= i < |init| && x in f(init[i]);
        assert pairs[i] == init[i];
      }
      if exists i :: 0 <= i < |pairs| && x in f(pairs[i]) {
        var i :| 0 <= i < |pairs| && x in f(pairs[i]);
        if i < |init| {
          assert pairs[i] == init[i];
        }
      }
    }
  }

  /** A candidate comes from some input pair. */
  lemma CleanedMembership(pairs: seq<Pair>, x: Pair)
    ensures x in Cleaned(pairs) <==> exists i :: 0 <= i < |pairs| && x in Candidates(pairs[i])
  {
    CleanedIsExpand(pairs);
    ExpandMembership(pairs, Candidates, x);
  }

  /** Every selected pair has an artist from the lower-cased allow-list and
      the song of an input pair; conversely every candidate whose artist is
      allowed is selected. */
  lemma SelectedPairs(pairs: seq<Pair>, desired: seq<string>, x: Pair)
    ensures x in Desirable(Cleaned(pairs), LowerAll(desired)) <==>
      x.artist in LowerAll(desired) && exists i :: 0 <= i < |pairs| && x in Candidates(pairs[i])
    ensures x in Desirable(Cleaned(pairs), LowerAll(desired)) ==>
      exists i :: 0 <= i < |pairs| && x.song == pairs[i].song
  {
    DesirableMembership(Cleaned(pairs), LowerAll(desired), x);
    CleanedMembership(pairs, x);
    if x in Desirable(Cleaned(pairs), LowerAll(desired)) {
      var i :| 0 <= i < |pairs| && x in Candidates(pairs[i]);
      CreditsSongs(pairs[i].song, FeatGroups(pairs[i].artist));
    }
  }

  /** FeatGroups of an artist string whose feat-split is known. */
  lemma FeatGroupsOf(artist: string, parts: seq<string>)
    requires Split(artist, Feat) == parts
    ensures |FeatGroups(artist)| == |parts|
    ensures forall j :: 0 <= j < |parts| ==> FeatGroups(artist)[j] == Split(parts[j], Amp)
  {
  }

  lemma CreditsOfOne(song: string, g: seq<string>)
    ensures Credits(song, [g]) == Credit(song, g)
  {
    assert [g][..0] == [];
  }

  lemma CreditsOfTwo(song: string, g0: seq<string>, g1: seq<string>)
    ensures Credits(song, [g0, g1]) == Credit(song, g0) + Credit(song, g1)
  {
    assert [g0, g1][..1] == [g0];
    CreditsOfOne(song, g0);
  }

  /** An artist string with neither separator yields exactly one candidate,
      the right-stripped string. */
  lemma SingleCandidate(song: string, artist: string)
    requires !Contains(artist, Feat) && !Contains(artist, Amp)
    ensures Candidates(Pair(song, artist)) == [Pair(song, RStrip(artist))]
  {
    SplitWithoutSeparator(artist, Feat);
    SplitWithoutSeparator(artist, Amp);
    FeatGroupsOf(artist, [artist]);
    var names: seq<string> := [artist];
    assert FeatGroups(artist) == [names];
    CreditsOfOne(song, names);
  }

  /** A name after '&' keeps its leading space: only trailing whitespace is
      stripped. */
  lemma AmpersandKeepsLeadingSpace(song: string, a: string, b: string)
    requires !Contains(a + Amp + b, Feat) && '&' !in a && !Contains(b, Amp)
    ensures Candidates(Pair(song, a + Amp + b)) == [Pair(song, RStrip(a)), Pair(song, RStrip(b))]
  {
    var artist := a + Amp + b;
    SplitWithoutSeparator(artist, Feat);
    SplitFirst(a, Amp, b);
    SplitWithoutSeparator(b, Amp);
    var names: seq<string> := [a, b];
    assert Split(artist, Amp) == names;
    FeatGroupsOf(artist, [artist]);
    assert FeatGroups(artist) == [names];
    CreditsOfOne(song, names);
  }

  lemma FeatSplitOf(m: string, rest: string)
    requires Feat[0] !in m && Feat[0] !in rest
    ensures Split(m + Feat + rest, Feat) == [m, rest]
  {
    SplitFirst(m, Feat, rest);
    FirstCharAbsent(rest, Feat);
    SplitWithoutSeparator(rest, Feat);
  }

  lemma AmpSplitOf(f: string, c: string)
    requires '&' !in f && '&' !in c
    ensures Split(f + Amp + c, Amp) == [f, c]
  {
    SplitFirst(f, Amp, c);
    FirstCharAbsent(c, Amp);
    SplitWithoutSeparator(c, Amp);
  }

  lemma FeatGroupsOfFeatured(m: string, f: string, c: string)
    requires Feat[0] !in m && '&' !in m
    requires Feat[0] !in f && Feat[0] !in c && '&' !in f && '&' !in c
    ensures FeatGroups(m + Feat + (f + Amp + c)) == [[m], [f, c]]
  {
    var rest := f + Amp + c;
    FeatSplitOf(m, rest);
    FirstCharAbsent(m, Amp);
    SplitWithoutSeparator(m, Amp);
    AmpSplitOf(f, c);
    FeatGroupsOf(m + Feat + rest, [m, rest]);
  }

  lemma CreditOfNames(song: string, m: string, f: string, c: string)
    ensures Credit(song, [m]) == [Pair(song, RStrip(m))]
    ensures Credit(song, [f, c]) == [Pair(song, RStrip(f)), Pair(song, RStrip(c))]
  {
  }

  /** "m feat. f & c", with the no-break space before "feat.", yields the
      three names m, f and c, each only right-stripped: c keeps the space
      that followed '&'. */
  lemma FeaturedAndCoCredited(song: string, m: string, f: string, c: string)
    requires Feat[0] !in m && '&' !in m
    requires Feat[0] !in f && Feat[0] !in c && '&' !in f && '&' !in c
    ensures Candidates(Pair(song, m + Feat + (f + Amp + c)))
         == [Pair(song, RStrip(m)), Pair(song, RStrip(f)), Pair(song, RStrip(c))]
  {
    var g0: seq<string> := [m];
    var g1: seq<string> := [f, c];
    FeatGroupsOfFeatured(m, f, c);
    CreditsOfTwo(song, g0, g1);
    CreditOfNames(song, m, f, c);
  }

  /** "alice feat. bob & carol" yields "alice", "bob" and " carol". */
  lemma FeaturingExample(song: string)
    ensures Candidates(Pair(song, "alice" + Feat + "bob & carol"))
         == [Pair(song, "alice"), Pair(song, "bob"), Pair(song, " carol")]
  {
    var m, f, c := "alice", "bob ", " carol";
    assert "alice" + Feat + "bob & carol" == m + Feat + (f + Amp + c);
    assert RStrip(m) == m && RStrip(f) == "bob" && RStrip(c) == c by {
      assert f[..3] == "bob";
    }
    FeaturedAndCoCredited(song, m, f, c);
  }

  // ---------------------------------------------------------------------------
  // Search results

  /** The search query for a pair: `song + " " + artist`. */
  function Query(p: Pair): string
  {
    p.song + " " + p.artist
  }

  /** The URIs fetch_songs_uri collects: for each pair in order, the first
      search result's URI when there is one. */
  function ResolvedUris(songs: seq<Pair>, search: string -> seq<string>): (uris: seq<string>)
    ensures |uris| <= |songs|
    decreases |songs|
  {
    if songs == [] then []
    else
      var found := search(Query(songs[|songs| - 1]));
      ResolvedUris(songs[..|songs| - 1], search) + (if |found| != 0 then [found[0]] else [])
  }

  /** fetch_songs_uri: one search per pair. */
  method FetchSongsUri(songs: seq<Pair>, search: string -> seq<string>) returns (songUris: seq<string>)
    ensures songUris == ResolvedUris(songs, search)
  {
    songUris := [];
    for i := 0 to |songs|
      invariant songUris == ResolvedUris(songs[..i], search)
    {
      var items := search(Query(songs[i]));
      if |items| != 0 {
        songUris := songUris + [items[0]];
      }
      assert songs[..i + 1][..i] == songs[..i];
    }
    assert songs[..|songs|] == songs;
  }

  /** Resolution works pair by pair, keeping order. */
  lemma {:induction false} ResolvedUrisConcat(a: seq<Pair>, b: seq<Pair>, search: string -> seq<string>)
    ensures ResolvedUris(a + b, search) == ResolvedUris(a, search) + ResolvedUris(b, search)
    decreases |b|
  {
    if b != [] {
      var init := b[..|b| - 1];
      assert (a + b)[..|a + b| - 1] == a + init;
      ResolvedUrisConcat(a, init, search);
    } else {
      assert a + b == a;
    }
  }

  /** One pair contributes its top result's URI, or nothing when the search
      finds nothing. */
  lemma ResolvedSinglePair(p: Pair, search: string -> seq<string>)
    ensures var found := search(p.song + " " + p.artist);
      ResolvedUris([p], search) == if found == [] then [] else [found[0]]
  {
    assert [p][..0] == [];
  }

  /** Every URI returned is the top search result for some input pair. */
  lemma {:induction false} ResolvedUrisAreTopResults(songs: seq<Pair>, search: string -> seq<string>, u: string)
    requires u in ResolvedUris(songs, search)
    ensures exists i :: 0 <= i < |songs| && search(Query(songs[i])) != [] && u == search(Query(songs[i]))[0]
    decreases |songs|
  {
    var init := songs[..|songs| - 1];
    if u in ResolvedUris(init, search) {
      ResolvedUrisAreTopResults(init, search, u);
      var i :| 0 <= i < |init| && search(Query(init[i])) != [] && u == search(Query(init[i]))[0];
      assert init[i] == songs[i];
    } else {
      assert search(Query(songs[|songs| - 1])) != [];
    }
  }

  // ---------------------------------------------------------------------------
  // The dedup guard

  /** `[(song, artist) for (song, artist) in pairs if (song, artist) not in seen]`. */
  function Unseen(pairs: seq<Pair>, seen: seq<Pair>): seq<Pair>
  {
    if pairs == [] then []
    else
      var last := pairs[|pairs| - 1];
      Unseen(pairs[..|pairs| - 1], seen) + (if last !in seen then [last] else [])
  }

  /** A pair is unseen exactly when it is an input pair absent from `seen`. */
  lemma {:induction false} UnseenMembership(pairs: seq<Pair>, seen: seq<Pair>, x: Pair)
    ensures x in Unseen(pairs, seen) <==> x in pairs && x !in seen
    decreases |pairs|
  {
    if pairs != [] {
      var init := pairs[..|pairs| - 1];
      UnseenMembership(init, seen, x);
      assert pairs == init + [pairs[|pairs| - 1]];
    }
  }

  /** The comprehension works pair by pair, keeping input order. */
  lemma {:induction false} UnseenConcat(a: seq<Pair>, b: seq<Pair>, seen: seq<Pair>)
    ensures Unseen(a + b, seen) == Unseen(a, seen) + Unseen(b, seen)
    decreases |b|
  {
    if b != [] {
      var init := b[..|b| - 1];
      assert (a + b)[..|a + b| - 1] == a + init;
      UnseenConcat(a, init, seen);
    } else {
      assert a + b == a;
    }
  }

  /** How often a pair occurs among the unseen pairs: never when it was seen,
      otherwise as often as in the input. */
  lemma {:induction false} UnseenCount(pairs: seq<Pair>, seen: seq<Pair>, x: Pair)
    ensures multiset(Unseen(pairs, seen))[x] == if x in seen then 0 else multiset(pairs)[x]
    decreases |pairs|
  {
    if pairs != [] {
      var init, last := pairs[..|pairs| - 1], pairs[|pairs| - 1];
      UnseenCount(init, seen, x);
      assert pairs == init + [last];
      assert multiset(pairs) == multiset(init) + multiset{last};
      var tail: seq<Pair> := if last !in seen then [last] else [];
      assert multiset(Unseen(pairs, seen)) == multiset(Unseen(init, seen)) + multiset(tail);
      assert multiset(tail)[x] == if x == last && x !in seen then 1 else 0;
    }
  }

  /** Against an empty history every pair, duplicates included, is unseen. */
  lemma {:induction false} UnseenOfNothing(pairs: seq<Pair>)
    ensures Unseen(pairs, []) == pairs
    decreases |pairs|
  {
    if pairs != [] {
      UnseenOfNothing(pairs[..|pairs| - 1]);
    }
  }

  /** What remove_already_added_songs returns, and the `songs` table after it. */
  datatype DedupStep = DedupStep(result: Option<seq<Pair>>, songs: seq<Pair>)

  /** remove_already_added_songs as written: with an empty table every pair
      is recorded and the input is returned; otherwise the unseen pairs are
      recorded and the function falls off its end, returning None. */
  function Dedup(songs: seq<Pair>, pairs: seq<Pair>): DedupStep
  {
    if |songs| > 0 then DedupStep(None, songs + Unseen(pairs, songs))
    else DedupStep(Some(pairs), songs + pairs)
  }

  /** The guard never removes or alters a recorded pair, and afterwards every
      input pair is recorded. */
  lemma DedupRecordsEveryPair(songs: seq<Pair>, pairs: seq<Pair>)
    ensures var s := Dedup(songs, pairs);
      |s.songs| >= |songs| && s.songs[..|songs|] == songs
      && forall x :: x in pairs ==> x in s.songs
  {
    forall x | x in pairs
      ensures x in Dedup(songs, pairs).songs
    {
      UnseenMembership(pairs, songs, x);
    }
  }

  /** With a non-empty table, exactly the input pairs missing from it before
      the call are appended, and None is returned. */
  lemma DedupAppendsUnseen(songs: seq<Pair>, pairs: seq<Pair>, x: Pair)
    requires songs != []
    ensures var s := Dedup(songs, pairs);
      s.result == None && s.songs[..|songs|] == songs
      && (x in s.songs[|songs|..] <==> x in pairs && x !in songs)
  {
    var s := Dedup(songs, pairs);
    assert s.songs[|songs|..] == Unseen(pairs, songs);
    UnseenMembership(pairs, songs, x);
  }

  /** Once any pair is recorded, every later call returns None, which the
      caller at generate.py:194 then iterates over. */
  lemma RecordedTableReturnsNone(first: seq<Pair>, later: seq<Pair>)
    requires first != []
    ensures Dedup(Dedup([], first).songs, later).result == None
  {
  }

  /** The guard as evidently intended: always return the pairs not recorded
      before the call, and record them. */
  function DedupFixed(songs: seq<Pair>, pairs: seq<Pair>): DedupStep
  {
    var newPairs := Unseen(pairs, songs);
    DedupStep(Some(newPairs), songs + newPairs)
  }

  /** On an empty table the corrected guard behaves as the original. */
  lemma FixedAgreesOnEmptyTable(pairs: seq<Pair>)
    ensures DedupFixed([], pairs) == Dedup([], pairs)
  {
    UnseenOfNothing(pairs);
  }

  /** Running the corrected guard again on the same pairs returns nothing new
      and records nothing. */
  lemma {:induction false} FixedRerunFindsNothing(songs: seq<Pair>, pairs: seq<Pair>)
    ensures var once := DedupFixed(songs, pairs);
      DedupFixed(once.songs, pairs) == DedupStep(Some([]), once.songs)
  {
    var once := DedupFixed(songs, pairs);
    forall x | x in pairs
      ensures x in once.songs
    {
      UnseenMembership(pairs, songs, x);
    }
    AllSeen(pairs, once.songs);
  }

  lemma {:induction false} AllSeen(pairs: seq<Pair>, seen: seq<Pair>)
    requires forall x :: x in pairs ==> x in seen
    ensures Unseen(pairs, seen) == []
    decreases |pairs|
  {
    if pairs != [] {
      AllSeen(pairs[..|pairs| - 1], seen);
    }
  }

  /** The corrected guard only appends to the table. */
  lemma FixedExtendsTable(songs: seq<Pair>, pairs: seq<Pair>)
    ensures var s := DedupFixed(songs, pairs);
      |s.songs| >= |songs| && s.songs[..|songs|] == songs
  {
  }

  /** A pair the corrected guard returns as new is recorded exactly once
      afterwards when it occurs once in the batch, and a recorded pair keeps
      its count. */
  lemma RecordedOnce(songs: seq<Pair>, pairs: seq<Pair>, x: Pair)
    ensures x !in songs && multiset(pairs)[x] == 1 ==> multiset(DedupFixed(songs, pairs).songs)[x] == 1
    ensures x in songs ==> multiset(DedupFixed(songs, pairs).songs)[x] == multiset(songs)[x]
  {
    UnseenCount(pairs, songs, x);
  }

  /** A pair repeated inside one batch that is new to the table is returned
      and recorded once per occurrence, as the comprehension keeps both. */
  lemma SameBatchDuplicateRecordedTwice(x: Pair)
    ensures DedupFixed([], [x, x]) == DedupStep(Some([x, x]), [x, x])
  {
    UnseenOfNothing([x, x]);
  }

  /** The `songs` table after the corrected guard has run over the batches in
      order. */
  function AfterRuns(songs: seq<Pair>, batches: seq<seq<Pair>>): seq<Pair>
    decreases |batches|
  {
    if batches == [] then songs
    else DedupFixed(AfterRuns(songs, batches[..|batches| - 1]), batches[|batches| - 1]).songs
  }

  /** A recorded pair stays recorded through any number of runs. */
  lemma {:induction false} StaysRecorded(songs: seq<Pair>, batches: seq<seq<Pair>>, x: Pair)
    requires x in songs
    ensures x in AfterRuns(songs, batches)
    decreases |batches|
  {
    if batches != [] {
      StaysRecorded(songs, batches[..|batches| - 1], x);
    }
  }

  /** A pair returned as new on one run is not returned as new on any later
      run, whatever the later runs are given. */
  lemma NewOnOneRunOnly(songs: seq<Pair>, first: seq<Pair>, later: seq<seq<Pair>>, x: Pair, k: nat)
    requires x in DedupFixed(songs, first).result.value && k < |later|
    ensures x !in DedupFixed(AfterRuns(DedupFixed(songs, first).songs, later[..k]), later[k]).result.value
  {
    var once := DedupFixed(songs, first);
    UnseenMembership(first, songs, x);
    StaysRecorded(once.songs, later[..k], x);
    UnseenMembership(later[k], AfterRuns(once.songs, later[..k]), x);
  }

  /** A pair the corrected guard returns as new is not returned as new by the
      next call, whatever that call is given. */
  lemma NewAtMostOnce(songs: seq<Pair>, first: seq<Pair>, second: seq<Pair>, x: Pair)
    requires x in DedupFixed(songs, first).result.value
    ensures x !in DedupFixed(DedupFixed(songs, first).songs, second).result.value
  {
    var once := DedupFixed(songs, first);
    UnseenMembership(second, once.songs, x);
  }

  // ---------------------------------------------------------------------------
  // The store: the `tokens` and `songs` tables of spotify.db

  class Store {
    var tokens: seq<TokenRow>
    var songs: seq<Pair>

    /** Opening the database with the rows it already holds. */
    constructor (tokens0: seq<TokenRow>, songs0: seq<Pair>)
      ensures tokens == tokens0 && songs == songs0
    {
      tokens := tokens0;
      songs := songs0;
    }

    /** `INSERT INTO tokens ...`. */
    method InsertToken(row: TokenRow)
      modifies this`tokens
      ensures tokens == old(tokens) + [row]
    {
      tokens := tokens + [row];
    }

    /** `INSERT INTO songs ...`. */
    method InsertSong(p: Pair)
      modifies this`songs
      ensures songs == old(songs) + [p]
    {
      songs := songs + [p];
    }

    /** fetch_access_token. */
    method FetchAccessToken(authCode: string, now: int, post: TokenRequest -> TokenResponse)
      returns (r: Result<TokenRow, Error>)
      modifies this`tokens
      ensures Step(r, tokens) == ExchangeCode(old(tokens), authCode, now, post)
    {
      var resp := post(AuthorizationCodeGrant(authCode));
      var row := NewRow(resp, resp.refreshToken, now);
      if row.Failure? {
        return Failure(row.error);
      }
      InsertToken(row.value);
      r := Success(Latest(tokens).value);
    }

    /** fetch_refreshed_token. */
    method FetchRefreshedToken(refreshToken: string, now: int, post: TokenRequest -> TokenResponse)
      returns (r: Result<string, Error>)
      modifies this`tokens
      ensures Step(r, tokens) == Refresh(old(tokens), refreshToken, now, post)
    {
      var resp := post(RefreshTokenGrant(refreshToken));
      var row := NewRow(resp, Some(refreshToken), now);
      if row.Failure? {
        return Failure(row.error);
      }
      InsertToken(row.value);
      r := Success(resp.accessToken.value);
    }

    /** get_access_token. */
    method GetAccessToken(authCode: string, now: int, post: TokenRequest -> TokenResponse)
      returns (r: Result<string, Error>)
      modifies this`tokens
      ensures Step(r, tokens) == AccessTokenStep(old(tokens), authCode, now, post)
    {
      var latest := Latest(tokens);
      if latest.Some? {
        var row := latest.value;
        if !TokenValid(now, row.addTime) {
          r := FetchRefreshedToken(row.refreshToken, now, post);
        } else {
          r := Success(row.accessToken);
        }
      } else {
        var fetched := FetchAccessToken(authCode, now, post);
        r := if fetched.Success? then Success(fetched.value.accessToken) else Failure(fetched.error);
      }
    }

    /** remove_already_added_songs, as written. */
    method RemoveAlreadyAddedSongs(pairs: seq<Pair>) returns (r: Option<seq<Pair>>)
      modifies this`songs
      ensures DedupStep(r, songs) == Dedup(old(songs), pairs)
    {
      var songsList := songs;
      if |songsList| > 0 {
        var newSongs := Unseen(pairs, songsList);
        for i := 0 to |newSongs|
          invariant songs == songsList + newSongs[..i]
        {
          InsertSong(newSongs[i]);
          assert newSongs[..i + 1] == newSongs[..i] + [newSongs[i]];
        }
        assert newSongs[..|newSongs|] == newSongs;
        r := None;
      } else {
        for i := 0 to |pairs|
          invariant songs == songsList + pairs[..i]
        {
          InsertSong(pairs[i]);
          assert pairs[..i + 1] == pairs[..i] + [pairs[i]];
        }
        assert pairs[..|pairs|] == pairs;
        r := Some(pairs);
      }
    }

    /** remove_already_added_songs with the missing `return new_songs`. */
    method RecordNewSongs(pairs: seq<Pair>) returns (newSongs: seq<Pair>)
      modifies this`songs
      ensures DedupStep(Some(newSongs), songs) == DedupFixed(old(songs), pairs)
    {
      var songsList := songs;
      newSongs := Unseen(pairs, songsList);
      for i := 0 to |newSongs|
        invariant songs == songsList + newSongs[..i]
      {
        InsertSong(newSongs[i]);
        assert newSongs[..i + 1] == newSongs[..i] + [newSongs[i]];
      }
      assert newSongs[..|newSongs|] == newSongs;
    }
  }

  // ---------------------------------------------------------------------------
  // Playlist pick and submission status

  /** An entry of the playlist listing. */
  datatype Playlist = Playlist(name: string, id: string)

  /** fetch_playlist as written: both branches return inside the loop, so only
      the first playlist is ever looked at; an empty listing falls off the
      end and gives None. */
  function FetchPlaylist(items: seq<Playlist>, name: string): (r: Option<string>)
    ensures r.Some? <==> items != [] && items[0].name == name
    ensures r.Some? ==> r.value == items[0].id
  {
    if items == [] then None
    else if items[0].name == name then Some(items[0].id)
    else None
  }

  /** A playlist with the wanted name in second place is not found. */
  lemma FetchPlaylistMissesLaterMatch()
    ensures FetchPlaylist([Playlist("Liked", "1"), Playlist("Automated Playlist", "2")], "Automated Playlist") == None
  {
  }

  /** The lookup as evidently intended: the id of the first playlist with the
      wanted name. */
  function FindPlaylist(items: seq<Playlist>, name: string): (r: Option<string>)
    ensures r.Some? <==> exists i :: 0 <= i < |items| && items[i].name == name
    ensures r.Some? ==> exists i :: 0 <= i < |items| && items[i].name == name && items[i].id == r.value
                          && forall j :: 0 <= j < i ==> items[j].name != name
    decreases |items|
  {
    if items == [] then None
    else if items[0].name == name then Some(items[0].id)
    else
      var r := FindPlaylist(items[1..], name);
      assert forall i :: 0 < i < |items| ==> items[i] == items[1..][i - 1];
      assert r.Some? ==> exists i :: 1 <= i < |items| && items[i].name == name && items[i].id == r.value
                          && forall j :: 0 <= j < i ==> items[j].name != name;
      r
  }

  /** Where the original finds a playlist, the corrected lookup finds the same. */
  lemma FindPlaylistExtendsFetch(items: seq<Playlist>, name: string)
    requires FetchPlaylist(items, name).Some?
    ensures FindPlaylist(items, name) == FetchPlaylist(items, name)
  {
  }

  /** The status test of add_to_playlist: anything but 400, 403 and 404 is
      reported as success. */
  function AddSucceeded(status: int): (ok: bool)
    ensures 200 <= status < 300 ==> ok
    ensures status >= 500 ==> ok
    ensures !ok ==> 400 <= status <= 404
    ensures status == 400 || status == 403 || status == 404 ==> !ok
  {
    status !in {400, 403, 404}
  }

  /** Every other client error, 401, 402, 405 and 429 among them, is reported
      as success. */
  lemma OtherClientErrorsCountAsSuccess(status: int)
    requires 400 <= status < 500 && status != 400 && status != 403 && status != 404
    ensures AddSucceeded(status)
    ensures AddSucceeded(401) && AddSucceeded(402) && AddSucceeded(405) && AddSucceeded(429)
  {
  }

  // ---------------------------------------------------------------------------
  // Scraped text

  /** `re.sub(' +', ' ', s).rstrip()`. */
  function Normalize(s: string): string
  {
    RStrip(CollapseSpaces(s))
  }

  /** Normalised text has no runs of spaces and no trailing whitespace. */
  lemma NormalizedIsClean(s: string)
    ensures NoDoubleSpace(Normalize(s))
    ensures Normalize(s) == [] || !IsSpace(Normalize(s)[|Normalize(s)| - 1])
  {
    var c := CollapseSpaces(s);
    RStripIsTrailingTrim(c);
    var r := RStrip(c);
    assert r == c[..|r|];
  }

  /** Normalising twice is normalising once. */
  lemma NormalizeIdempotent(s: string)
    ensures Normalize(Normalize(s)) == Normalize(s)
  {
    NormalizedIsClean(s);
    CollapseKeepsCollapsed(Normalize(s));
    RStripIdempotent(CollapseSpaces(s));
  }

  /** The text fragments of an artist, each followed by a space
      (generate.py:169-171). */
  function ArtistText(fragments: seq<string>): string
  {
    if fragments == [] then ""
    else ArtistText(fragments[..|fragments| - 1]) + fragments[|fragments| - 1] + " "
  }

  /** The text found in one chart entry: the title link's text and the text
      of each artist-info element. */
  datatype ChartEntry = ChartEntry(title: string, artistFragments: seq<string>)

  /** The pair fetch_hot_songs builds from one entry. */
  function EntryPair(e: ChartEntry): Pair
  {
    Pair(Lower(Normalize(e.title)), Lower(Normalize(ArtistText(e.artistFragments))))
  }

  /** Both fields of a scraped pair have no runs of spaces and no trailing
      whitespace. */
  lemma EntryPairIsClean(e: ChartEntry)
    ensures NoDoubleSpace(EntryPair(e).song) && NoDoubleSpace(EntryPair(e).artist)
    ensures EntryPair(e).song == [] || !IsSpace(EntryPair(e).song[|EntryPair(e).song| - 1])
    ensures EntryPair(e).artist == [] || !IsSpace(EntryPair(e).artist[|EntryPair(e).artist| - 1])
  {
    NormalizedIsClean(e.title);
    NormalizedIsClean(ArtistText(e.artistFragments));
    LowerKeepsSpaces(Normalize(e.title));
    LowerKeepsSpaces(Normalize(ArtistText(e.artistFragments)));
  }

  /** `song_artist_pair`: one pair per chart entry, in page order. */
  function ScrapedPairs(entries: seq<ChartEntry>): seq<Pair>
  {
    seq(|entries|, i requires 0 <= i < |entries| => EntryPair(entries[i]))
  }

  /** fetch_hot_songs after the HTML has been parsed: build one pair per chart
      entry, then select the desirable ones. */
  method FetchHotSongs(entries: seq<ChartEntry>, desired: seq<string>) returns (r: seq<Pair>)
    ensures r == Desirable(Cleaned(ScrapedPairs(entries)), LowerAll(desired))
  {
    var songArtistPair: seq<Pair> := [];
    for i := 0 to |entries|
      invariant songArtistPair == seq(i, k requires 0 <= k < i => EntryPair(entries[k]))
    {
      var songName := Normalize(entries[i].title);
      var fragments := entries[i].artistFragments;
      var artistName := "";
      for k := 0 to |fragments|
        invariant artistName == ArtistText(fragments[..k])
      {
        artistName := artistName + fragments[k] + " ";
        assert fragments[..k + 1][..k] == fragments[..k];
      }
      assert fragments[..|fragments|] == fragments;
      artistName := Normalize(artistName);
      songArtistPair := songArtistPair + [Pair(Lower(songName), Lower(artistName))];
    }
    assert songArtistPair == ScrapedPairs(entries);
    r := SelectDesirableSongs(songArtistPair, desired);
  }

  // ---------------------------------------------------------------------------
  // The authorization code

  const CodeMarker: string := "?code="

  /** `response.split("?code=")[1]`: the text between the first and second
      markers, or IndexError when there is no marker. */
  function AuthCodeFrom(url: string): (r: Result<string, Error>)
    ensures r.Success? <==> Contains(url, CodeMarker)
    ensures r.Failure? ==> r.error == IndexError
    ensures r.Success? ==> !Contains(r.value, CodeMarker)
    ensures r.Success? ==> var i := FindFrom(url, CodeMarker, 0).value;
      r.value <= url[i + |CodeMarker|..]
  {
    var parts := Split(url, CodeMarker);
    SplitPiecesAreFree(url, CodeMarker);
    SplitCutsIffContains(url, CodeMarker);
    if |parts| >= 2 then Success(parts[1]) else Failure(IndexError)
  }

  /** A redirect URL `base?code=CODE` gives back CODE. */
  lemma AuthCodeRoundTrip(base: string, code: string)
    requires '?' !in base && !Contains(code, CodeMarker)
    ensures AuthCodeFrom(base + CodeMarker + code) == Success(code)
  {
    SplitFirst(base, CodeMarker, code);
    SplitWithoutSeparator(code, CodeMarker);
  }

  /** A URL without the marker raises IndexError. */
  lemma AuthCodeMissing(url: string)
    requires !Contains(url, CodeMarker)
    ensures AuthCodeFrom(url) == Failure(IndexError)
  {
    SplitWithoutSeparator(url, CodeMarker);
  }
}
