/**
 * The two guards the bot puts in front of its command handlers, as decisions: either the
 * handler proceeds, or the bot replies with a fixed message and the handler does not run.
 */
module Decorators {
  import opened Strings
  import opened Wrappers
  import Config

  datatype Decision = Proceed | Reply(message: string)

  const Denied: string := "Bạn không có quyền sử dụng lệnh này."
  const Unsafe: string := "Input chứa ký tự không hợp lệ."
  /** The limit `validate_input` uses when none is given. */
  const DefaultMaxLength: int := 1000

  /** The reply to an input longer than `maxLength`. */
  function TooLong(maxLength: int): string {
    "Input quá dài. Tối đa " + IntToString(maxLength) + " ký tự."
  }

  // ---------------------------------------------------------------- admin_only

  /** `admin_only`: only users listed in `ADMIN_IDS` reach the command. */
  function AdminOnly(userId: int, adminIds: seq<int>): (d: Decision)
    ensures d.Proceed? <==> userId in adminIds
    ensures d.Reply? ==> d.message == Denied
  {
    if userId !in adminIds then Reply(Denied) else Proceed
  }

  /**
   * With `ADMIN_IDS` written as the comma-separated decimals of `ids`, a user reaches an
   * admin command exactly when they are one of `ids`.
   */
  lemma AdminOnlyConfigured(userId: int, ids: seq<int>)
    ensures var parsed := Config.ParseAdminIds(Join(Config.Decimals(ids), ','));
      parsed.Some? && (AdminOnly(userId, parsed.value).Proceed? <==> userId in ids)
  {
    Config.AdminIdsRoundTrip(ids);
  }

  /** With `ADMIN_IDS` unset, every user is turned away. */
  lemma AdminOnlyUnconfigured(userId: int)
    ensures var c := Config.Load(map[]);
      c.Some? && AdminOnly(userId, c.value.adminIds) == Reply(Denied)
  {
    Config.NoAdminIds();
    assert Config.GetEnv(map[], "ADMIN_IDS", "") == "";
  }

  // ---------------------------------------------------------------- validate_input

  /** The substrings `validate_input` refuses, in the order it looks for them. */
  const ForbiddenTokens: seq<string> := ["<", ">", "script", "javascript"]

  /** Some refused substring occurs in `input`. */
  predicate Forbidden(input: string) {
    exists k :: 0 <= k < |ForbiddenTokens| && Contains(input, ForbiddenTokens[k])
  }

  /**
   * `validate_input(max_length)`: without arguments the command proceeds; otherwise the
   * arguments joined by single spaces are refused when longer than `maxLength`, then when
   * they hold a refused substring.
   */
  function ValidateInput(args: seq<string>, maxLength: int): (d: Decision)
    ensures d.Reply? ==> d.message == TooLong(maxLength) || d.message == Unsafe
  {
    if args == [] then Proceed
    else
      var input := Join(args, ' ');
      if |input| > maxLength then Reply(TooLong(maxLength))
      else if Forbidden(input) then Reply(Unsafe)
      else Proceed
  }

  /** The length of the joined input: every argument plus one space between each two. */
  function InputLength(args: seq<string>): int {
    TotalLength(args) + |args| - 1
  }

  /** Some argument holds a refused substring. */
  predicate AnyForbidden(args: seq<string>) {
    exists i, k :: 0 <= i < |args| && 0 <= k < |ForbiddenTokens| && Contains(args[i], ForbiddenTokens[k])
  }

  /**
   * What `validate_input` decides, stated on the arguments themselves: the joined input is
   * too long exactly when the arguments' lengths plus the separating spaces exceed the limit,
   * and, since no refused substring holds a space, it holds one exactly when some argument does.
   */
  lemma ValidateInputMeaning(args: seq<string>, maxLength: int)
    ensures args == [] ==> ValidateInput(args, maxLength) == Proceed
    ensures args != [] && InputLength(args) > maxLength ==> ValidateInput(args, maxLength) == Reply(TooLong(maxLength))
    ensures args != [] && InputLength(args) <= maxLength && AnyForbidden(args) ==> ValidateInput(args, maxLength) == Reply(Unsafe)
    ensures args != [] && InputLength(args) <= maxLength && !AnyForbidden(args) ==> ValidateInput(args, maxLength) == Proceed
  {
    if args != [] {
      JoinLength(args, ' ');
      ForbiddenJoin(args);
    }
  }

  /** The command proceeds exactly when there are no arguments or they are short and clean. */
  lemma ValidateInputProceeds(args: seq<string>, maxLength: int)
    ensures ValidateInput(args, maxLength).Proceed? <==>
      args == [] || (InputLength(args) <= maxLength && !AnyForbidden(args))
  {
    ValidateInputMeaning(args, maxLength);
  }

  /** A refused substring occurs in the joined input exactly when it occurs in some argument. */
  lemma ForbiddenJoin(args: seq<string>)
    requires args != []
    ensures Forbidden(Join(args, ' ')) <==> AnyForbidden(args)
  {
    forall k | 0 <= k < |ForbiddenTokens|
      ensures Contains(Join(args, ' '), ForbiddenTokens[k]) <==> exists i :: 0 <= i < |args| && Contains(args[i], ForbiddenTokens[k])
    {
      assert ' ' !in ForbiddenTokens[k];
      JoinContains(args, ForbiddenTokens[k]);
    }
  }

  /** A string without spaces occurs in space-joined pieces exactly when it occurs in one piece. */
  lemma {:induction false} JoinContains(parts: seq<string>, sub: string)
    requires parts != []
    requires ' ' !in sub
    ensures Contains(Join(parts, ' '), sub) <==> exists i :: 0 <= i < |parts| && Contains(parts[i], sub)
  {
    if |parts| > 1 {
      var rest := parts[1..];
      JoinContains(rest, sub);
      ContainsAround(parts[0], Join(rest, ' '), sub);
      if exists i :: 0 <= i < |rest| && Contains(rest[i], sub) {
        var i :| 0 <= i < |rest| && Contains(rest[i], sub);
        assert parts[i + 1] == rest[i];
      }
      if exists i :: 0 <= i < |parts| && Contains(parts[i], sub) {
        var i :| 0 <= i < |parts| && Contains(parts[i], sub);
        if i > 0 {
          assert rest[i - 1] == parts[i];
        }
      }
    }
  }

  /** A string without `sep` occurs in `a + [sep] + b` exactly when it occurs in `a` or in `b`. */
  lemma ContainsAround(a: string, b: string, sub: string)
    requires ' ' !in sub
    ensures Contains(a + [' '] + b, sub) <==> Contains(a, sub) || Contains(b, sub)
  {
    var s := a + [' '] + b;
    if Contains(a, sub) {
      var i :| 0 <= i <= |a| - |sub| && OccursAt(a, sub, i);
      assert s[i..i + |sub|] == a[i..i + |sub|];
      assert OccursAt(s, sub, i);
    }
    if Contains(b, sub) {
      var j :| 0 <= j <= |b| - |sub| && OccursAt(b, sub, j);
      var i := |a| + 1 + j;
      assert s[i..i + |sub|] == b[j..j + |sub|];
      assert OccursAt(s, sub, i);
    }
    if Contains(s, sub) {
      var i :| 0 <= i <= |s| - |sub| && OccursAt(s, sub, i);
      if i + |sub| <= |a| {
        assert a[i..i + |sub|] == s[i..i + |sub|];
        assert OccursAt(a, sub, i);
      } else if i > |a| {
        var j := i - |a| - 1;
        assert b[j..j + |sub|] == s[i..i + |sub|];
        assert OccursAt(b, sub, j);
      } else {
        OccursCovers(s, sub, i, |a|);
        assert false;
      }
    }
  }

  /** Every position an occurrence covers holds a character of the string that occurs. */
  lemma OccursCovers(s: string, sub: string, i: int, p: int)
    requires 0 <= i <= |s| - |sub| && OccursAt(s, sub, i)
    requires i <= p < i + |sub|
    ensures s[p] in sub
  {
    assert s[p] == s[i..i + |sub|][p - i];
  }

  /** Looking for "javascript" adds nothing: every input holding it also holds "script". */
  lemma JavascriptRedundant(input: string)
    ensures Forbidden(input) <==> Contains(input, "<") || Contains(input, ">") || Contains(input, "script")
  {
    if Contains(input, "javascript") {
      var i :| 0 <= i <= |input| - 10 && OccursAt(input, "javascript", i);
      assert input[i + 4..i + 10] == input[i..i + 10][4..];
      assert "javascript"[4..] == "script";
      assert OccursAt(input, "script", i + 4);
    }
    assert ForbiddenTokens[0] == "<" && ForbiddenTokens[1] == ">";
    assert ForbiddenTokens[2] == "script" && ForbiddenTokens[3] == "javascript";
  }

  /** The length limit is checked first: an over-long input is refused as too long even when unsafe. */
  lemma LengthCheckedFirst(args: seq<string>, maxLength: int)
    requires args != [] && |Join(args, ' ')| > maxLength
    ensures ValidateInput(args, maxLength).Reply? && ValidateInput(args, maxLength).message == TooLong(maxLength)
  {
  }

  /** A single argument holding a tag is refused as unsafe under the default limit. */
  lemma TagRefused()
    ensures ValidateInput(["<b>"], DefaultMaxLength) == Reply(Unsafe)
  {
    var input := Join(["<b>"], ' ');
    assert input == "<b>";
    assert OccursAt(input, ForbiddenTokens[0], 0);
  }

  /** "test input" passes a limit of 100. */
  lemma PlainInputProceeds()
    ensures ValidateInput(["test", "input"], 100) == Proceed
  {
    var args := ["test", "input"];
    assert args[1..] == ["input"];
    assert TotalLength(args) == 9;
    forall i, k | 0 <= i < |args| && 0 <= k < |ForbiddenTokens|
      ensures !Contains(args[i], ForbiddenTokens[k])
    {
      NoForbiddenIn(args[i], k);
    }
    ValidateInputMeaning(args, 100);
  }

  lemma NoForbiddenIn(s: string, k: nat)
    requires s == "test" || s == "input"
    requires k < |ForbiddenTokens|
    ensures !Contains(s, ForbiddenTokens[k])
  {
    if k < 2 {
      assert '<' !in s && '>' !in s;
      if Contains(s, ForbiddenTokens[k]) {
        var i :| 0 <= i <= |s| - 1 && OccursAt(s, ForbiddenTokens[k], i);
        OccursCovers(s, ForbiddenTokens[k], i, i);
        assert false;
      }
    } else {
      assert |ForbiddenTokens[k]| >= 6 > |s|;
    }
  }

  /** A 200-character argument under a limit of 100 gets the reply naming the limit. */
  lemma LongInputRefused()
    ensures ValidateInput([seq(200, _ => 'A')], 100) == Reply("Input quá dài. Tối đa 100 ký tự.")
  {
    ThreeDigitsHundred();
  }

  lemma ThreeDigitsHundred()
    ensures TooLong(100) == "Input quá dài. Tối đa 100 ký tự."
  {
    assert NatToString(1) == "1";
    assert NatToString(10) == "1" + "0";
    assert NatToString(100) == "10" + "0";
    assert IntToString(100) == "100";
  }
}
