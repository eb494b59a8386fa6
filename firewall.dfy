/**
 * `Firewall`: the Windows firewall rule named after the running
 * executable, the `netsh` arguments that show it and that open it on every
 * profile, and the test on `netsh` output for a rule that still blocks
 * the application. Launching `netsh` is not modelled: the operations take
 * the first command-line argument and the tool's output as inputs.
 */
module Firewall {
  import opened Wrappers
  import opened Text

  const PROGRAM: string := "netsh"

  /** A process to launch: the program and its argument string. */
  datatype Command = Command(app: string, args: string)

  function Last(parts: seq<string>): string
    requires |parts| >= 1
  {
    parts[|parts| - 1]
  }

  /** `RuleName`: the file name of the executable, after its last `\`, lower-cased. */
  function RuleName(argv0: string): (r: string)
    ensures ToLower(r) == r
  {
    ToLower(Last(SplitChar(argv0, '\\')))
  }

  /** The character `c` does not appear in `s`. */
  predicate Lacks(s: string, c: char)
  {
    forall k :: 0 <= k < |s| ==> s[k] != c
  }

  /** A text without the one-character separator lacks that character. */
  lemma NotContainsChar(s: string, c: char)
    requires !Contains(s, [c])
    ensures Lacks(s, c)
  {
    forall k | 0 <= k < |s| ensures s[k] != c {
      assert !OccursAt(s, [c], k);
      assert s[k..k + 1] == [s[k]];
    }
  }

  /** A text lacking a character does not contain it as a separator. */
  lemma LacksNotContains(s: string, c: char)
    requires Lacks(s, c)
    ensures !Contains(s, [c])
  {
    forall j ensures !OccursAt(s, [c], j) {
      if 0 <= j && j + 1 <= |s| {
        assert s[j..j + 1][0] == s[j];
      }
    }
    NotContainsChar(s, c);
    NotContains(s, [c]);
  }

  /** The rule name has no `\` and no upper-case ASCII letter. */
  lemma RuleNameIsFileName(argv0: string)
    ensures Lacks(RuleName(argv0), '\\')
    ensures forall k :: 0 <= k < |RuleName(argv0)| ==> !('A' <= RuleName(argv0)[k] <= 'Z')
  {
    var name := Last(SplitChar(argv0, '\\'));
    NotContainsChar(name, '\\');
  }

  /** The rule name of a path is the lower-cased name of the file it ends in. */
  lemma RuleNameOfPath(dir: string, exe: string)
    requires Lacks(exe, '\\')
    ensures RuleName(dir + "\\" + exe) == ToLower(exe)
    ensures RuleName(exe) == ToLower(exe)
  {
    LacksNotContains(exe, '\\');
    assert FirstCharUnique("\\");
    SplitOnAppend(dir, "\\", exe);
    SplitOnNone(exe, "\\");
  }

  /** The argument of `UpdateAppRule`: allow the rule on every profile. */
  function UpdateRuleArguments(ruleName: string): string
  {
    SET_PREFIX + "\"" + ruleName + "\"" + ACTION_PART + "\"" + PROFILES_PART + "\""
  }

  /** The argument of `GetAppRules`: show the rule. */
  function ShowRuleArguments(ruleName: string): string
  {
    SHOW_PREFIX + "\"" + ruleName + "\""
  }

  /**
   * `UpdateAppRule` runs `netsh` (elevated) with the format string's text
   * for this executable; split at its quotes, the text gives `netsh` back
   * the rule name and the profile list.
   */
  function UpdateAppRule(argv0: string): (c: Command)
    ensures c.app == "netsh"
    ensures c.args == UPDATE_OPEN + RuleName(argv0) + UPDATE_CLOSE
    ensures Lacks(RuleName(argv0), '"') ==>
      SplitChar(c.args, '"') == [SET_PREFIX, RuleName(argv0), ACTION_PART, PROFILES_PART, ""]
  {
    var name := RuleName(argv0);
    var c := Command(PROGRAM, UpdateRuleArguments(name));
    UpdateText(name);
    if Lacks(name, '"') then UpdateArgumentsFields(name); c else c
  }

  /**
   * `GetAppRules` runs `netsh` with the format string's text for this
   * executable, whose quoted field is the rule name.
   */
  function GetAppRules(argv0: string): (c: Command)
    ensures c.app == "netsh"
    ensures c.args == SHOW_OPEN + RuleName(argv0) + "\""
    ensures Lacks(RuleName(argv0), '"') ==> SplitChar(c.args, '"') == [SHOW_PREFIX, RuleName(argv0), ""]
  {
    var name := RuleName(argv0);
    var c := Command(PROGRAM, ShowRuleArguments(name));
    ShowText(name);
    if Lacks(name, '"') then ShowArgumentsFields(name); c else c
  }

  /** The text of the format strings of `UpdateAppRule` and `GetAppRules` around `{0}`. */
  const UPDATE_OPEN: string := "advfirewall firewall set rule name=\""
  const UPDATE_CLOSE: string := "\" new action=allow profile=\"Domain,Public,Private\""
  const SHOW_OPEN: string := "advfirewall firewall show rule name=\""

  /** The update argument is the format string with the rule name in place of `{0}`. */
  lemma UpdateText(name: string)
    ensures UpdateRuleArguments(name) == UPDATE_OPEN + name + UPDATE_CLOSE
  {
    assert SET_PREFIX + "\"" == UPDATE_OPEN;
    assert "\"" + ACTION_PART == "\" new action=allow profile=";
    assert "\"" + ACTION_PART + "\"" == "\" new action=allow profile=\"";
    assert "\"" + ACTION_PART + "\"" + PROFILES_PART == "\" new action=allow profile=\"Domain,Public,Private";
    assert "\"" + ACTION_PART + "\"" + PROFILES_PART + "\"" == UPDATE_CLOSE;
    assert SET_PREFIX + "\"" + name + "\"" + ACTION_PART + "\"" + PROFILES_PART + "\""
        == (SET_PREFIX + "\"") + name + ("\"" + ACTION_PART + "\"" + PROFILES_PART + "\"");
  }

  /** The show argument is the format string with the rule name in place of `{0}`. */
  lemma ShowText(name: string)
    ensures ShowRuleArguments(name) == SHOW_OPEN + name + "\""
  {
    assert SHOW_PREFIX + "\"" == SHOW_OPEN;
  }

  const SET_PREFIX: string := "advfirewall firewall set rule name="
  const SHOW_PREFIX: string := "advfirewall firewall show rule name="
  const ACTION_PART: string := " new action=allow profile="
  const PROFILES_PART: string := "Domain,Public,Private"

  lemma LiteralsUnquoted()
    ensures Lacks(SET_PREFIX, '"') && Lacks(SHOW_PREFIX, '"')
    ensures Lacks(ACTION_PART, '"') && Lacks(PROFILES_PART, '"')
  {
  }

  /**
   * Split at its double quotes, the update argument gives back the rule
   * name as its second field and the profile list as its fourth, so
   * `netsh` reads the name it was given.
   */
  lemma UpdateArgumentsFields(ruleName: string)
    requires Lacks(ruleName, '"')
    ensures SplitChar(UpdateRuleArguments(ruleName), '"') == [SET_PREFIX, ruleName, ACTION_PART, PROFILES_PART, ""]
  {
    var parts := [SET_PREFIX, ruleName, ACTION_PART, PROFILES_PART, ""];
    JoinFive(SET_PREFIX, ruleName, ACTION_PART, PROFILES_PART, "\"");
    LiteralsUnquoted();
    AllUnquoted(parts);
    assert FirstCharUnique("\"");
    SplitJoin(parts, "\"");
  }

  /** Split at its double quotes, the show argument gives back the rule name as its second field. */
  lemma ShowArgumentsFields(ruleName: string)
    requires Lacks(ruleName, '"')
    ensures SplitChar(ShowRuleArguments(ruleName), '"') == [SHOW_PREFIX, ruleName, ""]
  {
    var parts := [SHOW_PREFIX, ruleName, ""];
    assert Join(parts, "\"") == ShowRuleArguments(ruleName) by {
      assert Join(parts[2..], "\"") == "";
    }
    LiteralsUnquoted();
    AllUnquoted(parts);
    assert FirstCharUnique("\"");
    SplitJoin(parts, "\"");
  }

  lemma JoinFive(a: string, b: string, c: string, d: string, q: string)
    ensures Join([a, b, c, d, ""], q) == a + q + b + q + c + q + d + q
  {
    var parts := [a, b, c, d, ""];
    assert parts[1..] == [b, c, d, ""] && parts[1..][1..] == [c, d, ""];
    assert parts[1..][1..][1..] == [d, ""] && parts[1..][1..][1..][1..] == [""];
    assert Join([""], q) == "";
    assert Join([d, ""], q) == d + q;
    assert Join([c, d, ""], q) == c + q + (d + q);
    assert Join([b, c, d, ""], q) == b + q + (c + q + (d + q));
  }

  lemma AllUnquoted(parts: seq<string>)
    requires forall i :: 0 <= i < |parts| ==> Lacks(parts[i], '"')
    ensures forall i :: 0 <= i < |parts| ==> !Contains(parts[i], "\"")
  {
    forall i | 0 <= i < |parts| ensures !Contains(parts[i], "\"") {
      LacksNotContains(parts[i], '"');
    }
  }

  /** The regular expression `Action:\s*Block` matches somewhere in `line`. */
  predicate MatchesActionBlock(line: string)
  {
    exists i, j | 0 <= i <= |line| && 0 <= j <= |line| ::
      OccursAt(line, "Action:", i) && i + 7 <= j && AllWhiteSpace(line[i + 7..j]) && OccursAt(line, "Block", j)
  }

  /** A `Profiles:` line that does not list every profile. */
  predicate PartialProfiles(line: string)
  {
    StartsWith(line, "Profiles:") && !Contains(line, "Domain,Private,Public")
  }

  /** Some line of the output blocks the application. */
  predicate AnyBlocking(lines: seq<string>)
  {
    exists k | 0 <= k < |lines| :: MatchesActionBlock(lines[k])
  }

  /** Some line of the output limits the rule to some profiles. */
  predicate AnyPartial(lines: seq<string>)
  {
    exists k | 0 <= k < |lines| :: PartialProfiles(lines[k])
  }

  /**
   * `DoesAppRestrictionExist`, on the output of the show command: some
   * line blocks, or some `Profiles:` line leaves a profile out.
   */
  predicate DoesAppRestrictionExist(rules: string)
    ensures DoesAppRestrictionExist(rules) <==>
      exists k | 0 <= k < |SplitChar(rules, '\n')| :: Restricting(SplitChar(rules, '\n')[k])
  {
    AnyBlocking(SplitChar(rules, '\n')) || AnyPartial(SplitChar(rules, '\n'))
  }

  /** A single line outside the regular expression and the profile test. */
  predicate Restricting(line: string)
  {
    MatchesActionBlock(line) || PartialProfiles(line)
  }


  lemma AnyBlockingAppend(la: seq<string>, lb: seq<string>)
    ensures AnyBlocking(la + lb) <==> AnyBlocking(la) || AnyBlocking(lb)
  {
    var l := la + lb;
    if AnyBlocking(l) {
      var k :| 0 <= k < |l| && MatchesActionBlock(l[k]);
      if k >= |la| {
        assert lb[k - |la|] == l[k];
      } else {
        assert la[k] == l[k];
      }
    }
    if AnyBlocking(la) {
      var k :| 0 <= k < |la| && MatchesActionBlock(la[k]);
      assert l[k] == la[k];
    }
    if AnyBlocking(lb) {
      var k :| 0 <= k < |lb| && MatchesActionBlock(lb[k]);
      assert l[|la| + k] == lb[k];
    }
  }

  lemma AnyPartialAppend(la: seq<string>, lb: seq<string>)
    ensures AnyPartial(la + lb) <==> AnyPartial(la) || AnyPartial(lb)
  {
    var l := la + lb;
    if AnyPartial(l) {
      var k :| 0 <= k < |l| && PartialProfiles(l[k]);
      if k >= |la| {
        assert lb[k - |la|] == l[k];
      } else {
        assert la[k] == l[k];
      }
    }
    if AnyPartial(la) {
      var k :| 0 <= k < |la| && PartialProfiles(la[k]);
      assert l[k] == la[k];
    }
    if AnyPartial(lb) {
      var k :| 0 <= k < |lb| && PartialProfiles(lb[k]);
      assert l[|la| + k] == lb[k];
    }
  }

  /** Output joined at a newline restricts when either part does. */
  lemma RestrictionOfAppend(a: string, b: string)
    ensures DoesAppRestrictionExist(a + "\n" + b) <==> DoesAppRestrictionExist(a) || DoesAppRestrictionExist(b)
  {
    assert FirstCharUnique("\n");
    SplitOnAppend(a, "\n", b);
    AnyBlockingAppend(SplitChar(a, '\n'), SplitChar(b, '\n'));
    AnyPartialAppend(SplitChar(a, '\n'), SplitChar(b, '\n'));
  }

  /** A line of output with no newline in it restricts exactly when it matches one of the tests. */
  lemma SingleLine(line: string)
    requires Lacks(line, '\n')
    ensures DoesAppRestrictionExist(line) <==> Restricting(line)
  {
    LacksNotContains(line, '\n');
    SplitOnNone(line, "\n");
  }

  /** `Action:`, white space other than a newline, then `Block`, anywhere in a line, is a restriction. */
  lemma BlockingLine(before: string, ws: string, after: string)
    requires AllWhiteSpace(ws) && Lacks(before + ws + after, '\n')
    ensures DoesAppRestrictionExist(before + "Action:" + ws + "Block" + after)
  {
    var line := before + "Action:" + ws + "Block" + after;
    var i := |before|;
    var j := |before| + 7 + |ws|;
    assert line[i..i + 7] == "Action:";
    assert line[i + 7..j] == ws;
    assert line[j..j + 5] == "Block";
    assert OccursAt(line, "Action:", i) && OccursAt(line, "Block", j);
    assert AllWhiteSpace(line[i + 7..j]);
    assert 0 <= i <= |line| && 0 <= j <= |line|;
    assert MatchesActionBlock(line);
    assert Lacks(line, '\n') by {
      forall k | 0 <= k < |line| ensures line[k] != '\n' {
        if k < i {
          assert line[k] == (before + ws + after)[k];
        } else if j <= k < j + 5 {
        } else if k >= j + 5 {
          assert line[k] == (before + ws + after)[k - 12];
        } else if k >= i + 7 {
          assert line[k] == (before + ws + after)[k - 7];
        }
      }
    }
    SingleLine(line);
  }

  /**
   * A line with no `Block` and no leading `Profiles:` is no restriction,
   * and nor is a `Profiles:` line listing all three profiles.
   */
  lemma QuietLine(line: string)
    requires Lacks(line, '\n') && !Contains(line, "Block")
    requires StartsWith(line, "Profiles:") ==> Contains(line, "Domain,Private,Public")
    ensures !DoesAppRestrictionExist(line)
  {
    SingleLine(line);
    assert forall j :: !OccursAt(line, "Block", j);
  }

  /**
   * The regular expression works on one line at a time: `Action:` and
   * `Block` on consecutive lines do not block.
   */
  lemma BlockAcrossLinesIgnored()
    ensures !DoesAppRestrictionExist("Action:" + "\n" + "Block")
  {
    RestrictionOfAppend("Action:", "Block");
    ActionAloneQuiet();
    BlockAloneQuiet();
  }

  lemma ActionAloneQuiet()
    ensures !DoesAppRestrictionExist("Action:")
  {
    forall j ensures !OccursAt("Action:", "Block", j) {
      if 0 <= j && j + 5 <= 7 {
        assert "Action:"[j] != 'B';
      }
    }
    NotContains("Action:", "Block");
    QuietLine("Action:");
  }

  lemma BlockAloneQuiet()
    ensures !DoesAppRestrictionExist("Block")
  {
    assert !MatchesActionBlock("Block");
    SingleLine("Block");
  }
}
