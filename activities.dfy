/** The bot's presence activities: the tag-to-type mapping and the list of activities one is
    picked from. The number of users and the random pick are inputs. */
module Activities {
  import opened Wrappers
  import opened Strings

  datatype ActivityType = Watching | Playing | Competing | Listening | Custom

  datatype Activity = Activity(kind: ActivityType, name: string)

  /** `get_types(tag)`. */
  function GetTypes(tag: string): (t: ActivityType)
    ensures t == Custom <==> tag !in {"watch", "play", "comp", "listen"}
  {
    if tag == "watch" then Watching
    else if tag == "play" then Playing
    else if tag == "comp" then Competing
    else if tag == "listen" then Listening
    else Custom
  }

  /** The one tag each non-custom type is reached from. */
  function TagOf(t: ActivityType): string
    requires t != Custom
  {
    match t
    case Watching => "watch"
    case Playing => "play"
    case Competing => "comp"
    case Listening => "listen"
  }

  /** Every type other than custom comes from exactly one tag. */
  lemma GetTypesTag(tag: string, t: ActivityType)
    requires t != Custom
    ensures GetTypes(tag) == t <==> tag == TagOf(t)
  {
  }

  /** Three decimal digits of `m`, zero-padded, as a thousands group shows them. */
  function Group3(m: nat): (s: string)
    requires m < 1000
    ensures |s| == 3 && AllDigits(s)
  {
    [DigitChar(m / 100), DigitChar(m / 10 % 10), DigitChar(m % 10)]
  }

  /** `f"{n:,}"`: the decimal digits of `n` with a comma between each group of three. */
  function Thousands(n: nat): (s: string)
  {
    if n < 1000 then NatToString(n) else Thousands(n / 1000) + "," + Group3(n % 1000)
  }

  /** `s` with its commas taken out. */
  function StripCommas(s: string): string
  {
    if |s| == 0 then ""
    else StripCommas(s[..|s| - 1]) + (if s[|s| - 1] == ',' then "" else [s[|s| - 1]])
  }

  function Pow10(k: nat): nat
  {
    if k == 0 then 1 else 10 * Pow10(k - 1)
  }

  /** Taking commas out of two pieces joined by a comma is taking them out of each. */
  lemma {:induction false} StripCommasJoin(a: string, b: string)
    ensures StripCommas(a + "," + b) == StripCommas(a) + StripCommas(b)
  {
    StripCommasAppend(a + ",", b);
    assert (a + ",")[..|a|] == a;
    assert StripCommas(a + ",") == StripCommas(a);
  }

  /** Taking commas out distributes over concatenation. */
  lemma {:induction false} StripCommasAppend(a: string, b: string)
    ensures StripCommas(a + b) == StripCommas(a) + StripCommas(b)
    decreases |b|
  {
    if |b| == 0 {
      assert a + b == a;
    } else {
      var b' := b[..|b| - 1];
      assert (a + b)[..|a + b| - 1] == a + b';
      StripCommasAppend(a, b');
    }
  }

  /** A string without commas is its own comma-free form. */
  lemma {:induction false} StripCommasDigits(s: string)
    requires AllDigits(s)
    ensures StripCommas(s) == s
    decreases |s|
  {
    if |s| > 0 {
      StripCommasDigits(s[..|s| - 1]);
      assert s == s[..|s| - 1] + [s[|s| - 1]];
    }
  }

  /** Two digit strings side by side are a digit string. */
  lemma AllDigitsAppend(a: string, b: string)
    requires AllDigits(a) && AllDigits(b)
    ensures AllDigits(a + b)
  {
    forall i | 0 <= i < |a + b| ensures IsDigit((a + b)[i]) {
      if i < |a| { assert (a + b)[i] == a[i]; } else { assert (a + b)[i] == b[i - |a|]; }
    }
  }

  /** The value of two digit strings side by side. */
  lemma {:induction false} DigitsValueAppend(a: string, b: string)
    requires AllDigits(a) && AllDigits(b)
    ensures AllDigits(a + b)
    ensures DigitsValue(a + b) == DigitsValue(a) * Pow10(|b|) + DigitsValue(b)
    decreases |b|
  {
    AllDigitsAppend(a, b);
    if |b| == 0 {
      assert a + b == a;
    } else {
      var b' := b[..|b| - 1];
      var d := DigitValue(b[|b| - 1]);
      assert (a + b)[..|a + b| - 1] == a + b';
      assert (a + b)[|a + b| - 1] == b[|b| - 1];
      DigitsValueAppend(a, b');
      var va, vb' := DigitsValue(a), DigitsValue(b');
      var p := Pow10(|b'|);
      assert DigitsValue(a + b) == DigitsValue(a + b') * 10 + d;
      assert DigitsValue(b) == vb' * 10 + d;
      ShiftDigit(va, p, vb', d);
    }
  }

  /** The arithmetic step of `DigitsValueAppend`. */
  lemma ShiftDigit(va: nat, p: nat, vb: nat, d: nat)
    ensures (va * p + vb) * 10 + d == va * (10 * p) + (vb * 10 + d)
  {
  }

  /** The three-digit group of `m` has value `m`. */
  lemma Group3Value(m: nat)
    requires m < 1000
    ensures DigitsValue(Group3(m)) == m
  {
    var s := Group3(m);
    var h, t, u := m / 100, m / 10 % 10, m % 10;
    assert s[..1] == [s[0]] && s[..2] == [s[0], s[1]];
    assert [s[0]][..0] == [] && [s[0], s[1]][..1] == [s[0]];
    assert DigitValue(s[0]) == h && DigitValue(s[1]) == t && DigitValue(s[2]) == u;
    assert DigitsValue([s[0]]) == h;
    assert DigitsValue([s[0], s[1]]) == h * 10 + t;
    assert DigitsValue(s) == (h * 10 + t) * 10 + u;
    assert m / 10 == h * 10 + t;
  }

  /** `f"{n:,}"` reads back as `n` once its commas are taken out. */
  lemma {:induction false} ThousandsValue(n: nat)
    ensures AllDigits(StripCommas(Thousands(n)))
    ensures ParseNat(StripCommas(Thousands(n))) == Some(n)
  {
    if n < 1000 {
      StripCommasDigits(NatToString(n));
      ParseNatToString(n);
    } else {
      ThousandsValue(n / 1000);
      var hi := StripCommas(Thousands(n / 1000));
      var lo := Group3(n % 1000);
      assert Thousands(n) == Thousands(n / 1000) + "," + lo;
      StripCommasJoin(Thousands(n / 1000), lo);
      StripCommasDigits(lo);
      assert StripCommas(Thousands(n)) == hi + lo;
      DigitsValueAppend(hi, lo);
      Group3Value(n % 1000);
      assert Pow10(3) == 1000;
      assert DigitsValue(hi) == n / 1000;
      assert DigitsValue(hi + lo) == (n / 1000) * 1000 + n % 1000;
    }
  }

  /** The five entries used when no options are given, the first counting the users. */
  function DefaultOptions(userCount: nat): (opts: seq<(string, string)>)
    ensures |opts| == 5
  {
    [("watch", Thousands(userCount) + " Students"),
     ("watch", "Youtube"),
     ("listen", "Cyber Security Lectures"),
     ("watch", "Computer Science Lectures"),
     ("play", "Minecraft")]
  }

  /** The entries `gen_activities` builds from: the given ones, or the defaults when none
      (or an empty collection) is given. */
  function EffectiveOptions(options: Option<seq<(string, string)>>, userCount: nat): (opts: seq<(string, string)>)
    ensures |opts| >= 1
    ensures options.Some? && options.value != [] ==> opts == options.value
    ensures options.None? || options.value == [] ==> opts == DefaultOptions(userCount)
  {
    if options.None? || options.value == [] then DefaultOptions(userCount) else options.value
  }

  /** `gen_activities(bot, options)`: one activity per entry, in order, typed by its tag and
      named by its text; `pick` stands for the random choice among them. */
  method GenActivities(options: Option<seq<(string, string)>>, userCount: nat, pick: nat)
    returns (built: seq<Activity>, chosen: Activity)
    ensures var opts := EffectiveOptions(options, userCount);
      && |built| == |opts|
      && (forall i :: 0 <= i < |opts| ==> built[i] == Activity(GetTypes(opts[i].0), opts[i].1))
      && chosen == built[pick % |built|]
    ensures chosen in built
  {
    var opts := if options.None? || options.value == [] then DefaultOptions(userCount) else options.value;
    built := [];
    var i := 0;
    while i < |opts|
      invariant 0 <= i <= |opts|
      invariant |built| == i
      invariant forall j :: 0 <= j < i ==> built[j] == Activity(GetTypes(opts[j].0), opts[j].1)
    {
      var (tag, name) := opts[i];
      built := built + [Activity(GetTypes(tag), name)];
      i := i + 1;
    }
    chosen := built[pick % |built|];
  }
}
