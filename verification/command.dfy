/** The vendor's command grammar: a head word followed by integer
    arguments, all separated by `#` (`off`, `on`, `pause`, `on#40`,
    `on#3#1`, `on#2#24#1`). Every mapper builds its commands with `Encode`;
    `Decode` is its inverse and lets the mappers' contracts talk about the
    fields of a command rather than about characters. */
module Command {
  import opened Optional
  import opened Text

  const Separator: char := '#'
  const On: string := "on"
  const Off: string := "off"
  const Pause: string := "pause"

  /** A command read back from the wire. */
  datatype Parsed = Parsed(head: string, args: seq<int>)

  function ArgStrings(args: seq<int>): (r: seq<string>)
    ensures |r| == |args|
    ensures forall k :: 0 <= k < |r| ==> r[k] == IntToString(args[k])
  {
    seq(|args|, k requires 0 <= k < |args| => IntToString(args[k]))
  }

  function ParseArgs(tokens: seq<string>): Option<seq<int>> {
    if |tokens| == 0 then Some([])
    else
      match (ParseInt(tokens[0]), ParseArgs(tokens[1..]))
      case (Some(v), Some(rest)) => Some([v] + rest)
      case _ => None
  }

  lemma {:induction false} ParseArgStrings(args: seq<int>)
    ensures ParseArgs(ArgStrings(args)) == Some(args)
  {
    if |args| > 0 {
      assert ArgStrings(args)[1..] == ArgStrings(args[1..]);
      ParseArgStrings(args[1..]);
      assert args == [args[0]] + args[1..];
    }
  }

  /** Reads a command: the text before the first `#` is the head, every
      further field must be an integer. */
  function Decode(cmd: string): Option<Parsed> {
    var parts := Split(cmd, Separator);
    match ParseArgs(parts[1..])
    case Some(args) => Some(Parsed(parts[0], args))
    case None => None
  }

  /** `f"{head}#{a1}#{a2}…"`: the command with the given head and arguments. */
  function Encode(head: string, args: seq<int>): (cmd: string)
    requires Separator !in head
    ensures Decode(cmd) == Some(Parsed(head, args))
    ensures (forall k :: 0 <= k < |head| ==> head[k] != '&' && head[k] != '=')
            ==> '&' !in cmd && '=' !in cmd
  {
    EncodeParts(head, args);
    Join([head] + ArgStrings(args), Separator)
  }

  /** No argument field holds a character other than a digit or `-`. */
  lemma ArgsAvoid(args: seq<int>, x: char)
    requires x != '-' && !IsDigit(x)
    ensures forall k :: 0 <= k < |args| ==> x !in ArgStrings(args)[k]
  {
    forall k | 0 <= k < |args|
      ensures x !in ArgStrings(args)[k]
    {
      var s := IntToString(args[k]);
      assert forall j :: 0 <= j < |s| ==> s[j] != x;
    }
  }

  lemma EncodeParts(head: string, args: seq<int>)
    requires Separator !in head
    ensures Decode(Join([head] + ArgStrings(args), Separator)) == Some(Parsed(head, args))
    ensures (forall k :: 0 <= k < |head| ==> head[k] != '&' && head[k] != '=')
            ==> '&' !in Join([head] + ArgStrings(args), Separator)
                && '=' !in Join([head] + ArgStrings(args), Separator)
  {
    var parts := [head] + ArgStrings(args);
    ArgsAvoid(args, Separator);
    assert forall k :: 0 <= k < |parts| ==> Separator !in parts[k] by {
      forall k | 0 <= k < |parts|
        ensures Separator !in parts[k]
      {
        if k > 0 {
          assert parts[k] == ArgStrings(args)[k - 1];
        }
      }
    }
    SplitJoin(parts, Separator);
    assert parts[1..] == ArgStrings(args);
    ParseArgStrings(args);
    if forall k :: 0 <= k < |head| ==> head[k] != '&' && head[k] != '=' {
      ArgsAvoid(args, '&');
      ArgsAvoid(args, '=');
      assert forall k :: 0 <= k < |parts| ==> '&' !in parts[k] && '=' !in parts[k] by {
        forall k | 0 <= k < |parts|
          ensures '&' !in parts[k] && '=' !in parts[k]
        {
          if k > 0 {
            assert parts[k] == ArgStrings(args)[k - 1];
          }
        }
      }
      JoinAvoids(parts, Separator, '&');
      JoinAvoids(parts, Separator, '=');
    }
  }

  lemma {:induction false} JoinAvoids(parts: seq<string>, sep: char, x: char)
    requires |parts| >= 1 && x != sep
    requires forall k :: 0 <= k < |parts| ==> x !in parts[k]
    ensures x !in Join(parts, sep)
    decreases |parts|
  {
    if |parts| > 1 {
      JoinAvoids(parts[1..], sep, x);
    }
  }

  /** Two commands built from different fields differ on the wire. */
  lemma EncodeInjective(h1: string, a1: seq<int>, h2: string, a2: seq<int>)
    requires Separator !in h1 && Separator !in h2
    requires Encode(h1, a1) == Encode(h2, a2)
    ensures h1 == h2 && a1 == a2
  {
    assert Decode(Encode(h1, a1)) == Some(Parsed(h1, a1));
  }

  /** The command grammar: `off` and `pause` stand alone, `on` carries at
      most three integers, and every integer is written in its canonical
      decimal form (no leading zeros, no `-0`), as the f-strings write it. */
  predicate WellFormed(cmd: string) {
    match Decode(cmd)
    case Some(Parsed(head, args)) =>
      && Separator !in head && cmd == Encode(head, args)
      && ((head == On && |args| <= 3) || ((head == Off || head == Pause) && args == []))
    case None => false
  }

  /** `on#02#24#1` reads as `on` with 2, 24 and 1, but is not in the
      grammar: only the canonical spelling `on#2#24#1` is. */
  lemma LeadingZeroNotWellFormed()
    ensures Decode("on#02#24#1") == Some(Parsed(On, [2, 24, 1]))
    ensures !WellFormed("on#02#24#1")
  {
    LeadingZeroDecodes();
    CanonicalLength();
  }

  lemma LeadingZeroDecodes()
    ensures Decode("on#02#24#1") == Some(Parsed(On, [2, 24, 1]))
  {
    LeadingZeroSplits();
    LeadingZeroArgs();
    DecodeFromSplit("on#02#24#1", "on", ["02", "24", "1"], [2, 24, 1]);
  }

  /** A command whose fields after the head read as integers decodes to
      its head and those integers. */
  lemma DecodeFromSplit(cmd: string, head: string, rest: seq<string>, args: seq<int>)
    requires Split(cmd, Separator) == [head] + rest && ParseArgs(rest) == Some(args)
    ensures Decode(cmd) == Some(Parsed(head, args))
  {
    assert Split(cmd, Separator)[1..] == rest;
  }

  lemma LeadingZeroArgs()
    ensures ParseArgs(["02", "24", "1"]) == Some([2, 24, 1])
  {
    DigitsParse();
    ParseArgsCons("1", [], 1, []);
    assert ["1"] + [] == ["1"] && [1] + [] == [1];
    ParseArgsCons("24", ["1"], 24, [1]);
    assert ["24"] + ["1"] == ["24", "1"] && [24] + [1] == [24, 1];
    ParseArgsCons("02", ["24", "1"], 2, [24, 1]);
    assert ["02"] + ["24", "1"] == ["02", "24", "1"] && [2] + [24, 1] == [2, 24, 1];
  }

  /** One more leading field that reads as an integer. */
  lemma ParseArgsCons(t: string, rest: seq<string>, v: int, vs: seq<int>)
    requires ParseInt(t) == Some(v) && ParseArgs(rest) == Some(vs)
    ensures ParseArgs([t] + rest) == Some([v] + vs)
  {
    assert ([t] + rest)[1..] == rest;
  }

  lemma LeadingZeroSplits()
    ensures Split("on#02#24#1", Separator) == ["on", "02", "24", "1"]
  {
    var parts := ["on", "02", "24", "1"];
    assert Join(["1"], Separator) == "1";
    assert Join(["24", "1"], Separator) == "24#1" by { assert ["24", "1"][1..] == ["1"]; }
    assert Join(["02", "24", "1"], Separator) == "02#24#1" by { assert ["02", "24", "1"][1..] == ["24", "1"]; }
    assert Join(parts, Separator) == "on#02#24#1" by { assert parts[1..] == ["02", "24", "1"]; }
    assert forall k :: 0 <= k < |parts| ==> Separator !in parts[k];
    SplitJoin(parts, Separator);
  }

  lemma DigitsParse()
    ensures ParseInt("02") == Some(2) && ParseInt("24") == Some(24) && ParseInt("1") == Some(1)
  {
    assert AllDigits("02") && AllDigits("24") && AllDigits("1");
    assert ParseNat("0") == 0;
    assert ParseNat("02") == 2 by { assert "02"[..1] == "0"; }
    assert ParseNat("2") == 2;
    assert ParseNat("24") == 24 by { assert "24"[..1] == "2"; }
  }

  lemma CanonicalLength()
    ensures |Encode(On, [2, 24, 1])| == 9
  {
    assert IntToString(2) == "2" && IntToString(1) == "1";
    assert IntToString(24) == "24";
    var q := [On] + ArgStrings([2, 24, 1]);
    assert q == ["on", "2", "24", "1"];
    assert Join(["1"], Separator) == "1";
    assert Join(["24", "1"], Separator) == "24#1" by { assert ["24", "1"][1..] == ["1"]; }
    assert Join(["2", "24", "1"], Separator) == "2#24#1" by { assert ["2", "24", "1"][1..] == ["24", "1"]; }
    assert Join(q, Separator) == "on#2#24#1" by { assert q[1..] == ["2", "24", "1"]; }
    assert Encode(On, [2, 24, 1]) == Join(q, Separator);
  }

  /** A command the coordinator can put in a form body as it is: no `&`
      and no `=` that would cut the `msg` field short. */
  predicate FormSafe(s: string) {
    '&' !in s && '=' !in s
  }

  lemma EncodedOnWellFormed(args: seq<int>)
    requires |args| <= 3
    ensures WellFormed(Encode(On, args)) && FormSafe(Encode(On, args))
  {
  }

  lemma FixedCommandsWellFormed()
    ensures Encode(Off, []) == Off && WellFormed(Off) && FormSafe(Off)
    ensures Encode(On, []) == On && WellFormed(On) && FormSafe(On)
    ensures Encode(Pause, []) == Pause && WellFormed(Pause) && FormSafe(Pause)
  {
    assert ArgStrings([]) == [];
  }
}
