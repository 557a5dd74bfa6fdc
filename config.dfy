/**
 * `config.py`: the settings `Config` reads from the environment when the module is imported,
 * and `Config.validate`, which lists the required settings that are missing.
 * The environment is a map from variable names to values, passed in.
 */
module Config {
  import opened Wrappers
  import opened Strings
  import Dicts

  type Env = map<string, string>

  /** `os.getenv(key, default)`. */
  function GetEnv(env: Env, key: string, default: string): string {
    if key in env then env[key] else default
  }

  /** `os.getenv(key)`: `None` when the variable is not set. */
  function Lookup(env: Env, key: string): Option<string> {
    if key in env then Some(env[key]) else None
  }

  /** Every non-empty piece is an integer. */
  predicate AllIntegers(pieces: seq<string>) {
    forall i :: 0 <= i < |pieces| && pieces[i] != "" ==> PyInt(pieces[i]).Some?
  }

  /**
   * `[int(id) for id in pieces if id]`: the non-empty pieces as integers, in order; `None`
   * when one of them is not an integer (Python raises `ValueError` at import).
   */
  function ParsePieces(pieces: seq<string>): (r: Option<seq<int>>)
    ensures r.Some? <==> AllIntegers(pieces)
  {
    if pieces == [] then Some([])
    else
      var rest := ParsePieces(pieces[1..]);
      assert forall i :: 1 <= i < |pieces| ==> pieces[i] == pieces[1..][i - 1];
      if pieces[0] == "" then rest
      else match (PyInt(pieces[0]), rest)
        case (Some(n), Some(ns)) => Some([n] + ns)
        case _ => None
  }

  /** `ADMIN_IDS = [int(id) for id in os.getenv('ADMIN_IDS', '').split(',') if id]`. */
  function ParseAdminIds(s: string): (r: Option<seq<int>>)
    ensures r.Some? <==> AllIntegers(Split(s, ','))
  {
    ParsePieces(Split(s, ','))
  }

  /** `str(n)` for each of `ids`. */
  function Decimals(ids: seq<int>): (r: seq<string>)
    ensures |r| == |ids| && forall i :: 0 <= i < |ids| ==> r[i] == IntToString(ids[i])
  {
    seq(|ids|, i requires 0 <= i < |ids| => IntToString(ids[i]))
  }

  /** Writing a list of ids as `ADMIN_IDS` (comma-separated decimals) and parsing it gives the list back. */
  lemma AdminIdsRoundTrip(ids: seq<int>)
    ensures ParseAdminIds(Join(Decimals(ids), ',')) == Some(ids)
  {
    var parts := Decimals(ids);
    if ids == [] {
      assert Split("", ',') == [""];
    } else {
      forall i | 0 <= i < |parts|
        ensures ',' !in parts[i]
      {
        DecimalHasNoComma(ids[i]);
      }
      SplitJoin(parts, ',');
      ParseDecimals(ids);
    }
  }

  lemma DecimalHasNoComma(n: int)
    ensures ',' !in IntToString(n)
  {
    var s := IntToString(n);
    if n < 0 {
      assert s == "-" + NatToString(-n);
      assert forall i :: 1 <= i < |s| ==> IsDigit(s[i]);
    }
  }

  lemma {:induction false} ParseDecimals(ids: seq<int>)
    ensures ParsePieces(Decimals(ids)) == Some(ids)
  {
    if ids != [] {
      ParseDecimals(ids[1..]);
      DecimalsTail(ids);
      DecimalPiece(ids[0]);
      ParsePiecesCons(Decimals(ids), ids[0], ids[1..]);
      assert [ids[0]] + ids[1..] == ids;
    }
  }

  lemma DecimalsTail(ids: seq<int>)
    requires ids != []
    ensures Decimals(ids) != [] && Decimals(ids)[0] == IntToString(ids[0])
    ensures Decimals(ids)[1..] == Decimals(ids[1..])
  {
  }

  /** A first piece that parses to `n`, before pieces that parse to `ns`, gives `n` then `ns`. */
  lemma ParsePiecesCons(pieces: seq<string>, n: int, ns: seq<int>)
    requires pieces != [] && pieces[0] != "" && PyInt(pieces[0]) == Some(n)
    requires ParsePieces(pieces[1..]) == Some(ns)
    ensures ParsePieces(pieces) == Some([n] + ns)
  {
  }

  lemma DecimalPiece(n: int)
    ensures IntToString(n) != "" && PyInt(IntToString(n)) == Some(n)
  {
    PyIntRoundTrip("", n, "");
    assert "" + IntToString(n) + "" == IntToString(n);
    if n >= 0 {
      assert IntToString(n) == NatToString(n);
    }
  }

  /** `ADMIN_IDS` unset or empty gives no admins. */
  lemma NoAdminIds()
    ensures ParseAdminIds("") == Some([])
  {
    assert Split("", ',') == [""];
  }

  /** "123,456,789" is read as the admins 123, 456 and 789. */
  lemma AdminIdsExample()
    ensures ParseAdminIds("123,456,789") == Some([123, 456, 789])
  {
    var ids := [123, 456, 789];
    ThreeDigits(1, 2, 3);
    ThreeDigits(4, 5, 6);
    ThreeDigits(7, 8, 9);
    var parts := Decimals(ids);
    assert parts == ["123", "456", "789"];
    assert parts[1..] == ["456", "789"] && parts[1..][1..] == ["789"];
    assert Join(["456", "789"], ',') == "456" + [','] + "789";
    assert Join(parts, ',') == "123" + [','] + "456" + [','] + "789";
    assert Join(parts, ',') == "123,456,789";
    AdminIdsRoundTrip(ids);
  }

  lemma ThreeDigits(a: nat, b: nat, c: nat)
    requires 1 <= a <= 9 && b <= 9 && c <= 9
    ensures IntToString(100 * a + 10 * b + c) == [DigitChar(a), DigitChar(b), DigitChar(c)]
  {
    var n := 100 * a + 10 * b + c;
    var m := 10 * a + b;
    assert n / 10 == m && n % 10 == c;
    assert m / 10 == a && m % 10 == b;
    assert NatToString(a) == [DigitChar(a)];
    assert NatToString(m) == [DigitChar(a)] + [DigitChar(b)];
    assert NatToString(n) == NatToString(m) + [DigitChar(c)];
  }

  /** `os.getenv(key, 'false').lower() == 'true'`: set only by "true" in any case. */
  function EnvFlag(env: Env, key: string): (b: bool)
    ensures key !in env ==> !b
  {
    Lower(GetEnv(env, key, "false")) == "true"
  }

  /** A flag is on exactly when it is set and its value, lower-cased, is "true": the default never turns it on. */
  lemma EnvFlagMeaning(env: Env, key: string)
    ensures EnvFlag(env, key) <==> key in env && Lower(env[key]) == "true"
  {
    if key !in env {
      assert Lower("false")[0] == 'f';
    }
  }

  /** "true", "True" and "TRUE" switch a flag on; "1" and "yes" do not. */
  lemma EnvFlagExamples(key: string)
    ensures EnvFlag(map[key := "true"], key) && EnvFlag(map[key := "True"], key) && EnvFlag(map[key := "TRUE"], key)
    ensures !EnvFlag(map[key := "1"], key) && !EnvFlag(map[key := "yes"], key) && !EnvFlag(map[key := "false"], key)
  {
    assert Lower("True") == "true";
    assert Lower("TRUE") == "true";
    assert Lower("yes") != "true";
  }

  /** The class attributes of `Config` that the core uses. */
  datatype Settings = Settings(
    telegramBotToken: Option<string>,
    adminIds: seq<int>,
    telegramProxyUrl: Option<string>,
    useProxy: bool,
    zabbixUrl: Option<string>,
    zabbixUser: Option<string>,
    zabbixPassword: Option<string>,
    bypassSsl: bool)

  /** Importing `config`: `None` when `ADMIN_IDS` holds a piece that is not an integer. */
  function Load(env: Env): (r: Option<Settings>)
    ensures r.Some? <==> ParseAdminIds(GetEnv(env, "ADMIN_IDS", "")).Some?
    ensures r.Some? ==> r.value.adminIds == ParseAdminIds(GetEnv(env, "ADMIN_IDS", "")).value
  {
    match ParseAdminIds(GetEnv(env, "ADMIN_IDS", ""))
    case None => None
    case Some(ids) =>
      Some(Settings(Lookup(env, "TELEGRAM_BOT_TOKEN"), ids, Lookup(env, "TELEGRAM_PROXY_URL"), EnvFlag(env, "USE_PROXY"),
                    Lookup(env, "ZABBIX_URL"), Lookup(env, "ZABBIX_USER"), Lookup(env, "ZABBIX_PASSWORD"),
                    EnvFlag(env, "BYPASS_SSL")))
  }

  /** A setting counts as given when it is set and not empty (Python truthiness). */
  predicate IsGiven(value: Option<string>) {
    value.Some? && value.value != ""
  }

  datatype Requirement = Requirement(name: string, given: bool)

  /** The required settings, in the order `validate` checks them. */
  function Requirements(c: Settings): (rs: seq<Requirement>)
    ensures |rs| == 5
  {
    [Requirement("TELEGRAM_BOT_TOKEN", IsGiven(c.telegramBotToken)),
     Requirement("ADMIN_IDS", c.adminIds != []),
     Requirement("ZABBIX_URL", IsGiven(c.zabbixUrl)),
     Requirement("ZABBIX_USER", IsGiven(c.zabbixUser)),
     Requirement("ZABBIX_PASSWORD", IsGiven(c.zabbixPassword))]
  }

  /** The names of the requirements that are not met, in order. */
  function Missing(rs: seq<Requirement>): seq<string> {
    if rs == [] then []
    else
      var last := rs[|rs| - 1];
      Missing(rs[..|rs| - 1]) + (if last.given then [] else [last.name])
  }

  function Message(name: string): string {
    name + " is required"
  }

  function Messages(names: seq<string>): (ms: seq<string>)
    ensures |ms| == |names| && forall i :: 0 <= i < |names| ==> ms[i] == Message(names[i])
  {
    seq(|names|, i requires 0 <= i < |names| => Message(names[i]))
  }

  /** `Config.validate()`: one message per required setting that is missing, in a fixed order. */
  method Validate(c: Settings) returns (errors: seq<string>)
    ensures errors == Messages(Missing(Requirements(c)))
  {
    ghost var rs := Requirements(c);
    errors := [];
    if !IsGiven(c.telegramBotToken) {
      errors := errors + [Message("TELEGRAM_BOT_TOKEN")];
    }
    assert errors == [] + Report(rs[0]);
    if c.adminIds == [] {
      errors := errors + [Message("ADMIN_IDS")];
    }
    assert errors == [] + Report(rs[0]) + Report(rs[1]);
    if !IsGiven(c.zabbixUrl) {
      errors := errors + [Message("ZABBIX_URL")];
    }
    assert errors == [] + Report(rs[0]) + Report(rs[1]) + Report(rs[2]);
    if !IsGiven(c.zabbixUser) {
      errors := errors + [Message("ZABBIX_USER")];
    }
    assert errors == [] + Report(rs[0]) + Report(rs[1]) + Report(rs[2]) + Report(rs[3]);
    if !IsGiven(c.zabbixPassword) {
      errors := errors + [Message("ZABBIX_PASSWORD")];
    }
    assert errors == [] + Report(rs[0]) + Report(rs[1]) + Report(rs[2]) + Report(rs[3]) + Report(rs[4]);
    MessagesOfFive(rs);
  }

  /** The message a requirement contributes: one when it is not met. */
  function Report(r: Requirement): seq<string> {
    if r.given then [] else [Message(r.name)]
  }

  /** The messages for five requirements are their contributions in order. */
  lemma MessagesOfFive(rs: seq<Requirement>)
    requires |rs| == 5
    ensures Messages(Missing(rs)) == [] + Report(rs[0]) + Report(rs[1]) + Report(rs[2]) + Report(rs[3]) + Report(rs[4])
  {
    assert rs[..0] == [];
    MissingPrefix(rs, 0);
    MissingPrefix(rs, 1);
    MissingPrefix(rs, 2);
    MissingPrefix(rs, 3);
    MissingPrefix(rs, 4);
    assert rs[..5] == rs;
  }

  /** Checking one more requirement appends its message when it is not met. */
  lemma MissingPrefix(rs: seq<Requirement>, k: nat)
    requires k < |rs|
    ensures Messages(Missing(rs[..k + 1])) == Messages(Missing(rs[..k])) + Report(rs[k])
  {
    assert rs[..k + 1][..k] == rs[..k];
    if !rs[k].given {
      MessagesSnoc(Missing(rs[..k]), rs[k].name);
    } else {
      assert Missing(rs[..k]) + [] == Missing(rs[..k]);
    }
  }

  lemma MessagesSnoc(names: seq<string>, name: string)
    ensures Messages(names + [name]) == Messages(names) + [Message(name)]
  {
  }

  /**
   * The missing names, with where each stands among the requirements: in increasing positions,
   * each unmet, and every unmet requirement among them.
   */
  lemma {:induction false} MissingPositions(rs: seq<Requirement>) returns (pos: seq<nat>)
    ensures |pos| == |Missing(rs)|
    ensures forall k :: 0 <= k < |pos| ==> pos[k] < |rs| && !rs[pos[k]].given && Missing(rs)[k] == rs[pos[k]].name
    ensures forall k, l :: 0 <= k < l < |pos| ==> pos[k] < pos[l]
    ensures forall i :: 0 <= i < |rs| && !rs[i].given ==> i in pos
  {
    if rs == [] {
      pos := [];
    } else {
      var n := |rs| - 1;
      var front := MissingPositions(rs[..n]);
      pos := PositionsStep(rs, front);
    }
  }

  /** The positions of the missing names among all requirements, from those among all but the last. */
  lemma PositionsStep(rs: seq<Requirement>, front: seq<nat>) returns (pos: seq<nat>)
    requires rs != []
    requires var init := rs[..|rs| - 1];
      && |front| == |Missing(init)|
      && (forall k :: 0 <= k < |front| ==> front[k] < |init| && !init[front[k]].given && Missing(init)[k] == init[front[k]].name)
      && (forall k, l :: 0 <= k < l < |front| ==> front[k] < front[l])
      && (forall i :: 0 <= i < |init| && !init[i].given ==> i in front)
    ensures |pos| == |Missing(rs)|
    ensures forall k :: 0 <= k < |pos| ==> pos[k] < |rs| && !rs[pos[k]].given && Missing(rs)[k] == rs[pos[k]].name
    ensures forall k, l :: 0 <= k < l < |pos| ==> pos[k] < pos[l]
    ensures forall i :: 0 <= i < |rs| && !rs[i].given ==> i in pos
  {
    var n := |rs| - 1;
    pos := if rs[n].given then front else front + [n];
    PositionsNamed(rs, front, pos);
    PositionsIncrease(front, pos, n);
    PositionsComplete(rs, front, pos);
  }

  lemma PositionsNamed(rs: seq<Requirement>, front: seq<nat>, pos: seq<nat>)
    requires rs != []
    requires var init := rs[..|rs| - 1];
      && |front| == |Missing(init)|
      && (forall k :: 0 <= k < |front| ==> front[k] < |init| && !init[front[k]].given && Missing(init)[k] == init[front[k]].name)
    requires pos == if rs[|rs| - 1].given then front else front + [|rs| - 1]
    ensures |pos| == |Missing(rs)|
    ensures forall k :: 0 <= k < |pos| ==> pos[k] < |rs| && !rs[pos[k]].given && Missing(rs)[k] == rs[pos[k]].name
  {
    var n := |rs| - 1;
    var init := rs[..n];
    assert Missing(rs) == Missing(init) + (if rs[n].given then [] else [rs[n].name]);
    forall k | 0 <= k < |pos|
      ensures pos[k] < |rs| && !rs[pos[k]].given && Missing(rs)[k] == rs[pos[k]].name
    {
      if k < |front| {
        assert pos[k] == front[k] && Missing(rs)[k] == Missing(init)[k] && init[front[k]] == rs[front[k]];
      }
    }
  }

  lemma PositionsIncrease(front: seq<nat>, pos: seq<nat>, n: nat)
    requires forall k :: 0 <= k < |front| ==> front[k] < n
    requires forall k, l :: 0 <= k < l < |front| ==> front[k] < front[l]
    requires pos == front || pos == front + [n]
    ensures forall k, l :: 0 <= k < l < |pos| ==> pos[k] < pos[l]
  {
  }

  lemma PositionsComplete(rs: seq<Requirement>, front: seq<nat>, pos: seq<nat>)
    requires rs != []
    requires forall i :: 0 <= i < |rs| - 1 && !rs[..|rs| - 1][i].given ==> i in front
    requires pos == if rs[|rs| - 1].given then front else front + [|rs| - 1]
    ensures forall i :: 0 <= i < |rs| && !rs[i].given ==> i in pos
  {
    var n := |rs| - 1;
    forall i | 0 <= i < |rs| && !rs[i].given
      ensures i in pos
    {
      if i < n {
        assert !rs[..n][i].given;
      }
    }
  }

  lemma MessageInjective(a: string, b: string)
    requires Message(a) == Message(b)
    ensures a == b
  {
    assert a == Message(a)[..|a|];
    assert b == Message(b)[..|b|];
  }

  /** A name is missing exactly when some requirement of that name is not met. */
  lemma {:induction false} MissingNames(rs: seq<Requirement>, name: string)
    ensures name in Missing(rs) <==> exists j :: 0 <= j < |rs| && rs[j].name == name && !rs[j].given
  {
    if rs != [] {
      var n := |rs| - 1;
      MissingNames(rs[..n], name);
      if name in Missing(rs[..n]) {
        var j :| 0 <= j < n && rs[..n][j].name == name && !rs[..n][j].given;
        assert rs[j] == rs[..n][j];
      }
      if j :| 0 <= j < |rs| && rs[j].name == name && !rs[j].given {
        if j < n {
          assert rs[..n][j] == rs[j];
        }
      }
    }
  }

  /** As many names are missing as requirements are not met. */
  lemma {:induction false} MissingCount(rs: seq<Requirement>)
    ensures |Missing(rs)| == |set i | 0 <= i < |rs| && !rs[i].given|
  {
    if rs != [] {
      var n := |rs| - 1;
      MissingCount(rs[..n]);
      var before := set i | 0 <= i < n && !rs[..n][i].given;
      var after := set i | 0 <= i < |rs| && !rs[i].given;
      if rs[n].given {
        assert after == before;
      } else {
        assert after == before + {n};
      }
    }
  }

  /** `validate` reports a required setting exactly when it is missing. */
  lemma ValidateReports(c: Settings, i: nat)
    requires i < 5
    ensures Message(Requirements(c)[i].name) in Messages(Missing(Requirements(c))) <==> !Requirements(c)[i].given
  {
    var rs := Requirements(c);
    var names := Missing(rs);
    MissingNames(rs, rs[i].name);
    if Message(rs[i].name) in Messages(names) {
      var k :| 0 <= k < |names| && Messages(names)[k] == Message(rs[i].name);
      MessageInjective(names[k], rs[i].name);
    }
    if !rs[i].given {
      var k :| 0 <= k < |names| && names[k] == rs[i].name;
      assert Messages(names)[k] == Message(rs[i].name);
    }
  }

  /**
   * `validate` returns one message per missing setting, at most five, and none exactly when
   * every required setting is given.
   */
  lemma ValidateCount(c: Settings)
    ensures var rs := Requirements(c); var errors := Messages(Missing(rs));
      && |errors| == |set i | 0 <= i < 5 && !rs[i].given|
      && |errors| <= 5
      && (errors == [] <==> forall i :: 0 <= i < 5 ==> rs[i].given)
  {
    var rs := Requirements(c);
    MissingCount(rs);
    var unmet := set i | 0 <= i < 5 && !rs[i].given;
    assert unmet <= {0, 1, 2, 3, 4};
    Dicts.SubsetSize(unmet, {0, 1, 2, 3, 4});
    if forall i :: 0 <= i < 5 ==> rs[i].given {
      assert unmet == {};
    } else {
      var i :| 0 <= i < 5 && !rs[i].given;
      assert i in unmet;
    }
  }

  /** With nothing in the environment every required setting is reported, in order. */
  lemma ValidateEmptyEnvironment()
    ensures Load(map[]).Some?
    ensures Messages(Missing(Requirements(Load(map[]).value))) ==
      ["TELEGRAM_BOT_TOKEN is required", "ADMIN_IDS is required", "ZABBIX_URL is required",
       "ZABBIX_USER is required", "ZABBIX_PASSWORD is required"]
  {
    NoAdminIds();
    var env: Env := map[];
    assert GetEnv(env, "ADMIN_IDS", "") == "";
    var c := Load(env).value;
    assert c.adminIds == [] && c.telegramBotToken.None? && c.zabbixUrl.None? && c.zabbixUser.None? && c.zabbixPassword.None?;
    ValidateNothingGiven(c);
  }

  /** When no required setting is given, `validate` reports all five, in order. */
  lemma ValidateNothingGiven(c: Settings)
    requires !IsGiven(c.telegramBotToken) && c.adminIds == [] && !IsGiven(c.zabbixUrl)
    requires !IsGiven(c.zabbixUser) && !IsGiven(c.zabbixPassword)
    ensures Messages(Missing(Requirements(c))) ==
      ["TELEGRAM_BOT_TOKEN is required", "ADMIN_IDS is required", "ZABBIX_URL is required",
       "ZABBIX_USER is required", "ZABBIX_PASSWORD is required"]
  {
    var rs := Requirements(c);
    MessagesOfFive(rs);
    var m1, m2, m3 := Message("TELEGRAM_BOT_TOKEN"), Message("ADMIN_IDS"), Message("ZABBIX_URL");
    var m4, m5 := Message("ZABBIX_USER"), Message("ZABBIX_PASSWORD");
    assert Report(rs[0]) == [m1] && Report(rs[1]) == [m2] && Report(rs[2]) == [m3];
    assert Report(rs[3]) == [m4] && Report(rs[4]) == [m5];
    assert [] + [m1] + [m2] + [m3] + [m4] + [m5] == [m1, m2, m3, m4, m5];
    BotMessageTexts();
    ZabbixMessageTexts();
  }

  lemma BotMessageTexts()
    ensures Message("TELEGRAM_BOT_TOKEN") == "TELEGRAM_BOT_TOKEN is required"
    ensures Message("ADMIN_IDS") == "ADMIN_IDS is required"
  {
  }

  lemma ZabbixMessageTexts()
    ensures Message("ZABBIX_URL") == "ZABBIX_URL is required"
    ensures Message("ZABBIX_USER") == "ZABBIX_USER is required"
    ensures Message("ZABBIX_PASSWORD") == "ZABBIX_PASSWORD is required"
  {
  }
}
