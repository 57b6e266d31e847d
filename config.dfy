/** `load_config()`: the bot's settings read from environment variables,
    with defaults for the variables that are not set. */
module Configuration {
  import opened Wrappers
  import opened Text

  /** The process environment, as `os.getenv` sees it. */
  type Environment = map<string, string>

  const DefaultTimezone := "Asia/Shanghai"
  const DefaultStocks := "AAPL,MSFT,GOOGL"

  /** The `Config` dataclass. */
  datatype Config = Config(discordToken: string, channelId: Option<int>, selectedStocks: seq<string>, timezone: string)

  /** `Config(discord_token, channel_id, selected_stocks)` with the
      dataclass default for the time zone. */
  function NewConfig(discordToken: string, channelId: Option<int>, selectedStocks: seq<string>): (c: Config)
    ensures c.timezone == DefaultTimezone
    ensures c.discordToken == discordToken && c.channelId == channelId && c.selectedStocks == selectedStocks
  {
    Config(discordToken, channelId, selectedStocks, DefaultTimezone)
  }

  /** What makes `load_config` raise: `int()` refused `DISCORD_CHANNEL_ID`. */
  datatype ConfigError = InvalidChannelId(text: string)

  /** `os.getenv(name, default)`. */
  function Getenv(env: Environment, name: string, default: string): (v: string)
    ensures GetenvOptional(env, name).Some? ==> v == GetenvOptional(env, name).value
    ensures GetenvOptional(env, name).None? ==> v == default
  {
    if name in env then env[name] else default
  }

  /** `os.getenv(name)`, None when the variable is not set. */
  function GetenvOptional(env: Environment, name: string): (r: Option<string>)
    ensures r.Some? <==> name in env
    ensures r.Some? ==> r.value == env[name]
  {
    if name in env then Some(env[name]) else None
  }

  /** `[s.strip() for s in parts if s.strip()]`: every kept entry is a
      piece stripped, non-empty and with nothing left to strip, and every
      piece that is not blank is kept. The order is stated by
      `StrippedNonBlankAppend`. */
  function StrippedNonBlank(parts: seq<string>): (kept: seq<string>)
    ensures forall s {:trigger s in kept} :: s in kept ==> s != "" && Strip(s) == s
    ensures forall s :: s in kept ==> exists p :: p in parts && s == Strip(p)
    ensures forall p {:trigger p in parts} :: p in parts && Strip(p) != "" ==> Strip(p) in kept
  {
    if parts == [] then []
    else
      var rest := StrippedNonBlank(parts[1..]);
      var kept := KeptPiece(parts[0]) + rest;
      KeptCons(parts, rest, kept);
      kept
  }

  /** One step of the comprehension: the first piece's contribution put in
      front of what the other pieces keep keeps every property above. */
  lemma KeptCons(parts: seq<string>, rest: seq<string>, kept: seq<string>)
    requires parts != [] && kept == KeptPiece(parts[0]) + rest
    requires forall s {:trigger s in rest} :: s in rest ==> s != "" && Strip(s) == s
    requires forall s :: s in rest ==> exists p :: p in parts[1..] && s == Strip(p)
    requires forall p {:trigger p in parts[1..]} :: p in parts[1..] && Strip(p) != "" ==> Strip(p) in rest
    ensures forall s {:trigger s in kept} :: s in kept ==> s != "" && Strip(s) == s
    ensures forall s :: s in kept ==> exists p :: p in parts && s == Strip(p)
    ensures forall p {:trigger p in parts} :: p in parts && Strip(p) != "" ==> Strip(p) in kept
  {
    StripIdempotent(parts[0]);
    forall s | s in kept
      ensures s != "" && Strip(s) == s
      ensures exists p :: p in parts && s == Strip(p)
    {
      if s in rest {
        var p :| p in parts[1..] && s == Strip(p);
        assert p in parts;
      } else {
        assert parts[0] in parts;
      }
    }
    forall p | p in parts && Strip(p) != ""
      ensures Strip(p) in kept
    {
      var i :| 0 <= i < |parts| && parts[i] == p;
      if i > 0 {
        assert parts[1..][i - 1] == p;
        assert p in parts[1..];
      }
    }
  }

  /** The ticker list read from `SELECTED_STOCKS`: the comma-separated
      entries, each stripped, blank ones dropped. No entry is empty, has
      surrounding whitespace or holds a comma; each is an entry of the text
      stripped, and every entry that is not blank is there. */
  function SelectedStocks(text: string): (stocks: seq<string>)
    ensures forall s {:trigger s in stocks} :: s in stocks ==> s != "" && Strip(s) == s && ',' !in s
    ensures forall s :: s in stocks ==> exists p :: p in Split(text, ',') && s == Strip(p)
    ensures forall p {:trigger p in Split(text, ',')} :: p in Split(text, ',') && Strip(p) != "" ==> Strip(p) in stocks
  {
    var parts := Split(text, ',');
    var stocks := StrippedNonBlank(parts);
    forall s | s in stocks
      ensures ',' !in s
    {
      var p :| p in parts && s == Strip(p);
      if ',' in s {
        StripSubset(p, ',');
        assert false;
      }
    }
    stocks
  }

  /** `int(text) if text else None` for `DISCORD_CHANNEL_ID`. */
  function ChannelId(text: Option<string>): (r: Result<Option<int>, ConfigError>)
    ensures r.Success? && r.value.None? <==> text.None? || text.value == ""
    ensures r.Success? && r.value.Some? <==> text.Some? && ParseInt(text.value).Some?
    ensures r.Success? && r.value.Some? ==> r.value.value == ParseInt(text.value).value
  {
    if text.None? || text.value == "" then Success(None)
    else
      match ParseInt(text.value)
      case Some(n) => Success(Some(n))
      case None => Failure(InvalidChannelId(text.value))
  }

  /** `load_config()`. */
  function LoadConfig(env: Environment): (r: Result<Config, ConfigError>)
    ensures r.Success? ==> r.value.discordToken == Getenv(env, "DISCORD_TOKEN", "")
    ensures r.Success? ==> r.value.timezone == Getenv(env, "TIMEZONE", DefaultTimezone)
    ensures r.Success? ==> r.value.selectedStocks == SelectedStocks(Getenv(env, "SELECTED_STOCKS", DefaultStocks))
    ensures r.Success? ==> ChannelId(GetenvOptional(env, "DISCORD_CHANNEL_ID")) == Success(r.value.channelId)
    ensures r.Failure? <==> ChannelId(GetenvOptional(env, "DISCORD_CHANNEL_ID")).Failure?
  {
    var token := Getenv(env, "DISCORD_TOKEN", "");
    var channelId := ChannelId(GetenvOptional(env, "DISCORD_CHANNEL_ID"));
    var stocksText := Getenv(env, "SELECTED_STOCKS", DefaultStocks);
    var timezone := Getenv(env, "TIMEZONE", DefaultTimezone);
    if channelId.Failure? then Failure(channelId.error)
    else Success(Config(token, channelId.value, SelectedStocks(stocksText), timezone))
  }

  // ---------------------------------------------------------------------
  // Properties
  // ---------------------------------------------------------------------

  /** The kept entries follow the order of the pieces: those of a first
      run of pieces come before those of the pieces after it. */
  lemma {:induction false} StrippedNonBlankAppend(a: seq<string>, b: seq<string>)
    ensures StrippedNonBlank(a + b) == StrippedNonBlank(a) + StrippedNonBlank(b)
  {
    if a != [] {
      assert (a + b)[0] == a[0] && (a + b)[1..] == a[1..] + b;
      StrippedNonBlankAppend(a[1..], b);
      StrippedNonBlankUnfold(a + b);
      StrippedNonBlankUnfold(a);
      var h := KeptPiece(a[0]);
      assert h + (StrippedNonBlank(a[1..]) + StrippedNonBlank(b)) == h + StrippedNonBlank(a[1..]) + StrippedNonBlank(b);
    } else {
      assert a + b == b;
    }
  }

  /** What one piece contributes: itself stripped, or nothing when blank. */
  function KeptPiece(p: string): seq<string> {
    if Strip(p) == "" then [] else [Strip(p)]
  }

  lemma StrippedNonBlankUnfold(parts: seq<string>)
    requires parts != []
    ensures StrippedNonBlank(parts) == KeptPiece(parts[0]) + StrippedNonBlank(parts[1..])
  {
  }

  /** The entries before a comma come first, in order, then those after
      it. */
  lemma SelectedStocksAppend(x: string, y: string)
    ensures SelectedStocks(x + "," + y) == SelectedStocks(x) + SelectedStocks(y)
  {
    SplitAppend(x, y, ',');
    StrippedNonBlankAppend(Split(x, ','), Split(y, ','));
  }

  /** A text without a comma is one entry: kept stripped, or dropped when
      blank. */
  lemma SelectedStocksSingle(x: string)
    requires ',' !in x
    ensures SelectedStocks(x) == if Strip(x) == "" then [] else [Strip(x)]
  {
    SplitNoSeparator(x, ',');
    assert StrippedNonBlank([x]) == (if Strip(x) == "" then [] else [Strip(x)]) by {
      assert [x][1..] == [];
    }
  }

  lemma Uncons<T>(xs: seq<T>)
    requires xs != []
    ensures [xs[0]] + xs[1..] == xs
  {
  }

  /** A list of clean tickers written out with commas reads back as the same
      list, in the same order. */
  lemma {:induction false} StrippedNonBlankClean(xs: seq<string>)
    requires forall s {:trigger s in xs} :: s in xs ==> s != "" && Strip(s) == s
    ensures StrippedNonBlank(xs) == xs
  {
    if xs != [] {
      var tail := xs[1..];
      assert xs[0] in xs;
      forall s | s in tail
        ensures s != "" && Strip(s) == s
      {
        assert s in xs;
      }
      StrippedNonBlankClean(tail);
      StrippedNonBlankUnfold(xs);
      assert KeptPiece(xs[0]) == [xs[0]];
      Uncons(xs);
    }
  }

  lemma SelectedStocksRoundTrip(xs: seq<string>)
    requires forall s :: s in xs ==> s != "" && Strip(s) == s && ',' !in s
    ensures SelectedStocks(Join(",", xs)) == xs
  {
    if xs == [] {
      assert Split("", ',') == [""];
      StripUnchanged("");
    } else {
      SplitJoin(xs, ',');
      StrippedNonBlankClean(xs);
    }
  }

  /** Reading the list written out again gives the same list. */
  lemma SelectedStocksIdempotent(text: string)
    ensures SelectedStocks(Join(",", SelectedStocks(text))) == SelectedStocks(text)
  {
    SelectedStocksRoundTrip(SelectedStocks(text));
  }

  /** With none of the four variables set, the settings are the defaults. */
  lemma LoadConfigDefaults(env: Environment)
    requires "DISCORD_TOKEN" !in env && "DISCORD_CHANNEL_ID" !in env
    requires "SELECTED_STOCKS" !in env && "TIMEZONE" !in env
    ensures LoadConfig(env) == Success(Config("", None, ["AAPL", "MSFT", "GOOGL"], "Asia/Shanghai"))
  {
    DefaultTickers();
    assert Getenv(env, "SELECTED_STOCKS", DefaultStocks) == DefaultStocks;
  }

  /** The default ticker text reads as its three tickers. */
  lemma DefaultTickers()
    ensures SelectedStocks(DefaultStocks) == ["AAPL", "MSFT", "GOOGL"]
  {
    ThreeTickers("AAPL", "MSFT", "GOOGL", DefaultStocks);
  }

  /** A ticker spelled in capital letters. */
  predicate CapitalLetters(s: string) {
    s != "" && forall i :: 0 <= i < |s| ==> 'A' <= s[i] <= 'Z'
  }

  /** A ticker in capital letters survives `strip()` and holds no comma. */
  lemma CapitalLettersClean(s: string)
    requires CapitalLetters(s)
    ensures Strip(s) == s && ',' !in s
  {
    StripUnchanged(s);
  }

  /** Three tickers in capital letters joined with commas read back as
      themselves. */
  lemma ThreeTickers(a: string, b: string, c: string, text: string)
    requires CapitalLetters(a) && CapitalLetters(b) && CapitalLetters(c)
    requires text == a + "," + b + "," + c
    ensures SelectedStocks(text) == [a, b, c]
  {
    CapitalLettersClean(a);
    CapitalLettersClean(b);
    CapitalLettersClean(c);
    var xs := [a, b, c];
    assert Join(",", xs) == text by {
      assert xs[1..] == [b, c] && xs[1..][1..] == [c];
      assert Join(",", [b, c]) == b + "," + c;
      assert Join(",", xs) == a + "," + (b + "," + c);
    }
    assert forall s :: s in xs ==> s == a || s == b || s == c;
    SelectedStocksRoundTrip(xs);
  }

  /** A channel id written by `str()` reads back as the same integer. */
  lemma ChannelIdRoundTrip(env: Environment, n: int)
    requires "DISCORD_CHANNEL_ID" in env && env["DISCORD_CHANNEL_ID"] == IntToString(n)
    ensures LoadConfig(env).Success? && LoadConfig(env).value.channelId == Some(n)
  {
    IntToStringRoundTrip(n);
  }

  /** A channel id holding an ASCII information separator (U+001C to
      U+001F) makes `load_config` fail, even where `strip()` would remove
      it. */
  lemma ChannelIdWithSeparator(env: Environment, i: nat)
    requires "DISCORD_CHANNEL_ID" in env && i < |env["DISCORD_CHANNEL_ID"]|
    requires IsInformationSeparator(env["DISCORD_CHANNEL_ID"][i])
    ensures LoadConfig(env) == Failure(InvalidChannelId(env["DISCORD_CHANNEL_ID"]))
  {
    InformationSeparatorRefused(env["DISCORD_CHANNEL_ID"], i);
  }

  /** A channel id without a single digit makes `load_config` fail. */
  lemma ChannelIdWithoutDigits(env: Environment)
    requires "DISCORD_CHANNEL_ID" in env && env["DISCORD_CHANNEL_ID"] != ""
    requires forall i :: 0 <= i < |env["DISCORD_CHANNEL_ID"]| ==> !IsDigit(env["DISCORD_CHANNEL_ID"][i])
    ensures LoadConfig(env) == Failure(InvalidChannelId(env["DISCORD_CHANNEL_ID"]))
  {
    ParseIntNeedsDigit(env["DISCORD_CHANNEL_ID"]);
  }
}
