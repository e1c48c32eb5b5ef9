/** The pure helpers of the bot's command context: list humanising, the disambiguation guards
    and the index-valued options of the disambiguation menu, the two code-block layouts, the
    tick lookup, and the confirmation prompt's result. The emoji theme is an input. */
module Context {
  import opened Wrappers
  import opened Strings

  /** `humanize_list(items)`. An empty list has no last item: `items[-1]` raises, which is
      the `None` here. */
  function HumanizeList(items: seq<string>): (r: Option<string>)
    ensures r.None? <==> |items| == 0
    ensures |items| == 1 ==> r == Some(items[0])
  {
    if |items| == 0 then None
    else if |items| == 1 then Some(items[0])
    else Some(Join(", ", items[..|items| - 1]) + ", and " + items[|items| - 1])
  }

  /** Two items are joined by `", and "`. */
  lemma HumanizeTwo(a: string, b: string)
    ensures HumanizeList([a, b]) == Some(a + ", and " + b)
  {
    assert [a, b][..1] == [a];
  }

  /** For two or more items the result starts with the first item, ends with `", and "`
      followed by the last, and is as long as the items plus one `", "` between each of the
      first `n - 1` and the six characters of `", and "`. */
  lemma {:induction false} HumanizeShape(items: seq<string>)
    requires |items| >= 2
    ensures var r := HumanizeList(items).value;
      var last := items[|items| - 1];
      && |r| == TotalLength(items) + 2 * (|items| - 2) + 6
      && |r| >= |items[0]| && r[..|items[0]|] == items[0]
      && r[|r| - |last| - 6..] == ", and " + last
  {
    var init := items[..|items| - 1];
    var last := items[|items| - 1];
    JoinLength(", ", init);
    assert items[..|items| - 1] == init;
    JoinStartsWithFirst(", ", init);
    assert init[0] == items[0];
  }

  /** A non-empty join starts with its first piece. */
  lemma {:induction false} JoinStartsWithFirst(sep: string, xs: seq<string>)
    requires |xs| >= 1
    ensures |Join(sep, xs)| >= |xs[0]| && Join(sep, xs)[..|xs[0]|] == xs[0]
  {
    if |xs| >= 2 {
      JoinStartsWithFirst(sep, xs[..|xs| - 1]);
      var j := Join(sep, xs[..|xs| - 1]);
      assert Join(sep, xs) == j + sep + xs[|xs| - 1];
      assert (j + sep + xs[|xs| - 1])[..|xs[0]|] == j[..|xs[0]|];
    }
  }

  /** The most options a select menu can hold. */
  const MaxMatches: nat := 25

  /** What `disambiguate` does with the matches before any menu is shown. */
  datatype Disambiguation<T> = NoResults | Only(item: T) | TooMany | NeedsMenu

  /** The guards of `disambiguate`: nothing found is an error, a single match is returned
      as it is, more than 25 is an error, and anything else needs the menu. */
  function Disambiguate<T>(matches: seq<T>): (r: Disambiguation<T>)
    ensures r.NoResults? <==> |matches| == 0
    ensures r.Only? <==> |matches| == 1
    ensures r.Only? ==> r.item == matches[0]
    ensures r.TooMany? <==> |matches| > MaxMatches
    ensures r.NeedsMenu? <==> 2 <= |matches| <= MaxMatches
  {
    if |matches| == 0 then NoResults
    else if |matches| == 1 then Only(matches[0])
    else if |matches| > MaxMatches then TooMany
    else NeedsMenu
  }

  /** A menu option: what it shows and the value it reports when picked. */
  datatype SelectOption = SelectOption(caption: string, value: string)

  /** What the `entry` callback gives for a match: an option ready to use, or any other
      value, which is shown through its `str`. */
  datatype Rendered = AsOption(option: SelectOption) | AsText(text: string)

  /** The text the option of a rendered match shows. */
  function LabelOf(e: Rendered): string
  {
    match e
    case AsOption(o) => o.caption
    case AsText(t) => t
  }

  /** The options loop of `DisambiguatorView.__init__`: one option per match, in order, each
      showing the rendered match and valued with its index in decimal. */
  method BuildOptions<T>(data: seq<T>, entry: T -> Rendered) returns (options: seq<SelectOption>)
    ensures |options| == |data|
    ensures forall i :: 0 <= i < |data| ==>
      options[i] == SelectOption(LabelOf(entry(data[i])), NatToString(i))
  {
    options := [];
    var i := 0;
    while i < |data|
      invariant 0 <= i <= |data|
      invariant |options| == i
      invariant forall j :: 0 <= j < i ==>
        options[j] == SelectOption(LabelOf(entry(data[j])), NatToString(j))
    {
      var opt := match entry(data[i])
        case AsOption(o) => o
        case AsText(t) => SelectOption(t, "");
      opt := opt.(value := NatToString(i));
      options := options + [opt];
      i := i + 1;
    }
  }

  /** `on_select_submit` for the reported `value`: `data[int(value)]`. The menu only ever
      reports the values `str(i)` it was built with (see `PickedOptionSelectsMatch`); `None`
      stands for any other string, which the model does not follow into Python's `int`. */
  function Selected<T>(data: seq<T>, value: string): (r: Option<T>)
    ensures r.Some? <==> ParseNat(value).Some? && ParseNat(value).value < |data|
  {
    match ParseNat(value)
    case None => None
    case Some(i) => if i < |data| then Some(data[i]) else None
  }

  /** Picking the i-th option selects the i-th match: the index travels through its decimal
      string and back. */
  lemma PickedOptionSelectsMatch<T>(data: seq<T>, options: seq<SelectOption>, entry: T -> Rendered, i: nat)
    requires |options| == |data|
    requires forall j :: 0 <= j < |data| ==>
      options[j] == SelectOption(LabelOf(entry(data[j])), NatToString(j))
    requires i < |options|
    ensures Selected(data, options[i].value) == Some(data[i])
  {
    ParseNatToString(i);
  }

  /** The widest name among `entries`: `max(len(a) for a, b in entries)`. */
  function MaxNameLength(entries: seq<(string, string)>): (w: nat)
    ensures forall i :: 0 <= i < |entries| ==> |entries[i].0| <= w
    ensures |entries| > 0 ==> exists i :: 0 <= i < |entries| && |entries[i].0| == w
  {
    if |entries| == 0 then 0
    else
      var w := MaxNameLength(entries[..|entries| - 1]);
      var n := |entries[|entries| - 1].0|;
      if n > w then n else w
  }

  const Fence: string := "```"
  /** The zero-width space the indented layout starts each entry line with. */
  const ZeroWidthSpace: char := '\U{200B}'

  /** The message a code block is sent as: its lines joined by newlines. */
  function CodeMessage(lines: seq<string>): string
  {
    Join("\n", lines)
  }

  /** The message of a block that opens and closes with a fence begins and ends with one. */
  lemma CodeMessageFenced(lines: seq<string>)
    requires |lines| >= 2 && lines[0] == Fence && lines[|lines| - 1] == Fence
    ensures var m := CodeMessage(lines);
      |m| >= 2 * |Fence| && m[..|Fence|] == Fence && m[|m| - |Fence|..] == Fence
  {
    JoinStartsWithFirst("\n", lines);
    JoinLength("\n", lines);
    assert TotalLength(lines) >= |lines[0]| + |lines[|lines| - 1]| by {
      TotalLengthAtLeastEnds(lines);
    }
  }

  /** The first and last piece of two or more are part of the total length. */
  lemma {:induction false} TotalLengthAtLeastEnds(xs: seq<string>)
    requires |xs| >= 2
    ensures TotalLength(xs) >= |xs[0]| + |xs[|xs| - 1]|
  {
    var init := xs[..|xs| - 1];
    TotalLengthAtLeastFirst(init);
  }

  /** The first piece is part of the total length. */
  lemma {:induction false} TotalLengthAtLeastFirst(xs: seq<string>)
    requires |xs| >= 1
    ensures TotalLength(xs) >= |xs[0]|
  {
    if |xs| >= 2 {
      TotalLengthAtLeastFirst(xs[..|xs| - 1]);
    }
  }

  /** `f"{name:<{width}}: {entry}"`. */
  function EntryLine(name: string, entry: string, width: nat): string
  {
    PadRight(name, width) + ": " + entry
  }

  /** `f"\u200b{name:>{width}}: {entry}"`. */
  function IndentedEntryLine(name: string, entry: string, width: nat): string
  {
    [ZeroWidthSpace] + PadLeft(name, width) + ": " + entry
  }

  /** With `width` at least the name's length, a line starts with the name and `": "`
      starts in column `width`, followed by the entry. */
  lemma EntryLineAligned(name: string, entry: string, width: nat)
    requires |name| <= width
    ensures var line := EntryLine(name, entry, width);
      && |line| == width + 2 + |entry|
      && line[..|name|] == name && line[width..width + 2] == ": " && line[width + 2..] == entry
  {
    var p := PadRight(name, width);
    assert p + ": " + entry == p + (": " + entry);
  }

  /** With `width` at least the name's length, an indented line starts with the zero-width
      space, the name ends in column `width + 1`, and `": "` and the entry follow it. */
  lemma IndentedEntryLineAligned(name: string, entry: string, width: nat)
    requires |name| <= width
    ensures var line := IndentedEntryLine(name, entry, width);
      && |line| == width + 3 + |entry| && line[0] == ZeroWidthSpace
      && line[1 + width - |name|..1 + width] == name
      && line[1 + width..width + 3] == ": " && line[width + 3..] == entry
  {
    var p := PadLeft(name, width);
    var t := ": " + entry;
    var line := [ZeroWidthSpace] + (p + t);
    assert IndentedEntryLine(name, entry, width) == line;
    assert |p| == width;
    assert line[1 + width - |name|..1 + width] == p[width - |name|..];
    assert line[1 + width..] == t;
    assert line[1 + width..width + 3] == t[..2] == ": ";
    assert line[width + 3..] == t[2..] == entry;
  }

  /** The loop both `entry_to_code` variants share: a fence, `lineOf(name, entry, width)`
      for each entry in order, and a fence. */
  method FencedLines(entries: seq<(string, string)>, width: nat, lineOf: (string, string, nat) -> string)
    returns (lines: seq<string>)
    ensures |lines| == |entries| + 2
    ensures lines[0] == Fence && lines[|lines| - 1] == Fence
    ensures forall i :: 0 <= i < |entries| ==> lines[i + 1] == lineOf(entries[i].0, entries[i].1, width)
  {
    lines := [Fence];
    var i := 0;
    while i < |entries|
      invariant 0 <= i <= |entries|
      invariant |lines| == i + 1 && lines[0] == Fence
      invariant forall j :: 0 <= j < i ==> lines[j + 1] == lineOf(entries[j].0, entries[j].1, width)
    {
      lines := lines + [lineOf(entries[i].0, entries[i].1, width)];
      i := i + 1;
    }
    lines := lines + [Fence];
  }

  /** The lines `entry_to_code(entries)` sends as `CodeMessage(lines)`: a fence, one aligned
      line per entry, and a fence. No entries is the `ValueError` of `max` over nothing. */
  method EntryToCode(entries: seq<(string, string)>) returns (r: Option<seq<string>>)
    ensures r.None? <==> |entries| == 0
    ensures r.Some? ==>
      var lines := r.value;
      var w := MaxNameLength(entries);
      && |lines| == |entries| + 2
      && lines[0] == Fence && lines[|lines| - 1] == Fence
      && forall i :: 0 <= i < |entries| ==> lines[i + 1] == EntryLine(entries[i].0, entries[i].1, w)
  {
    if |entries| == 0 {
      return None;
    }
    var lines := FencedLines(entries, MaxNameLength(entries), EntryLine);
    r := Some(lines);
  }

  /** `indented_entry_to_code(entries)`: as `EntryToCode`, with the right-justified lines. */
  method IndentedEntryToCode(entries: seq<(string, string)>) returns (r: Option<seq<string>>)
    ensures r.None? <==> |entries| == 0
    ensures r.Some? ==>
      var lines := r.value;
      var w := MaxNameLength(entries);
      && |lines| == |entries| + 2
      && lines[0] == Fence && lines[|lines| - 1] == Fence
      && forall i :: 0 <= i < |entries| ==> lines[i + 1] == IndentedEntryLine(entries[i].0, entries[i].1, w)
  {
    if |entries| == 0 {
      return None;
    }
    var lines := FencedLines(entries, MaxNameLength(entries), IndentedEntryLine);
    r := Some(lines);
  }

  /** The theme key `tick` looks its emoji up under. */
  datatype TickKind = Success | Error | Info

  function TickKindOf(opt: Option<bool>): (k: TickKind)
    ensures k == Success <==> opt == Some(true)
    ensures k == Error <==> opt == Some(false)
    ensures k == Info <==> opt.None?
  {
    match opt
    case Some(true) => Success
    case Some(false) => Error
    case None => Info
  }

  /** `tick(opt, label)`: the emoji the theme gives for the kind, followed by `": "` and the
      label when one is given; `emojiFor` stands for the theme lookup. */
  function Tick(opt: Option<bool>, caption: Option<string>, emojiFor: TickKind -> string): (r: string)
    ensures caption.None? ==> r == emojiFor(TickKindOf(opt))
    ensures caption.Some? ==>
      var e := emojiFor(TickKindOf(opt));
      && |r| == |e| + 2 + |caption.value|
      && r[..|e|] == e && r[|e|..|e| + 2] == ": " && r[|e| + 2..] == caption.value
  {
    var emoji := emojiFor(TickKindOf(opt));
    if caption.Some? then emoji + ": " + caption.value else emoji
  }

  /** The three outcomes a tick can show are told apart by the key they are looked up under. */
  lemma TickKindInjective(a: Option<bool>, b: Option<bool>)
    requires TickKindOf(a) == TickKindOf(b)
    ensures a == b
  {
  }

  /** The two buttons of a confirmation dialog. */
  datatype Button = ConfirmButton | CancelButton

  /** One button press during the dialog's lifetime. */
  datatype Press = Press(user: nat, button: Button)

  /** What a dialog answers for the presses it received: the first press by `author`
      decides (`True` for confirm, `False` for cancel); no such press is `None`. */
  function FirstAuthorPress(presses: seq<Press>, author: nat): Option<bool>
  {
    if |presses| == 0 then None
    else if presses[0].user == author then Some(presses[0].button == ConfirmButton)
    else FirstAuthorPress(presses[1..], author)
  }

  /** The dialog answers `b` exactly when some press by the author has that meaning and no
      earlier press is the author's, and `None` exactly when the author never pressed. */
  lemma {:induction false} FirstAuthorPressMeaning(presses: seq<Press>, author: nat)
    ensures FirstAuthorPress(presses, author).None? <==>
      forall i :: 0 <= i < |presses| ==> presses[i].user != author
    ensures FirstAuthorPress(presses, author).Some? ==>
      exists i :: 0 <= i < |presses| && presses[i].user == author
        && FirstAuthorPress(presses, author) == Some(presses[i].button == ConfirmButton)
        && forall j :: 0 <= j < i ==> presses[j].user != author
  {
    if |presses| > 0 && presses[0].user != author {
      var rest := presses[1..];
      FirstAuthorPressMeaning(rest, author);
      assert forall i :: 1 <= i < |presses| ==> presses[i] == rest[i - 1];
      if FirstAuthorPress(rest, author).Some? {
        var k :| 0 <= k < |rest| && rest[k].user == author
          && FirstAuthorPress(rest, author) == Some(rest[k].button == ConfirmButton)
          && forall j :: 0 <= j < k ==> rest[j].user != author;
        assert presses[k + 1] == rest[k];
      }
    }
  }

  /** `ConfirmationView`: who may answer, and `value`, which stays `None` until a button
      is pressed. */
  class ConfirmationView {
    const authorId: nat
    var value: Option<bool>
    var stopped: bool

    constructor (authorId: nat)
      ensures this.authorId == authorId && value == None && !stopped
    {
      this.authorId := authorId;
      value := None;
      stopped := false;
    }

    /** `interaction_check`: only the dialog's author may press its buttons. */
    method InteractionCheck(user: nat) returns (allowed: bool)
      ensures allowed <==> user == authorId
    {
      allowed := user == authorId;
    }

    /** The confirm button: the answer becomes `True` and the view stops. */
    method Confirm()
      modifies this`value, this`stopped
      ensures value == Some(true) && stopped
    {
      value := Some(true);
      stopped := true;
    }

    /** The cancel button: the answer becomes `False` and the view stops. */
    method Cancel()
      modifies this`value, this`stopped
      ensures value == Some(false) && stopped
    {
      value := Some(false);
      stopped := true;
    }
  }

  /** Who answers a `prompt`: the `author_id` argument unless it is missing or `0` (Python's
      `author_id or self.author.id`), the context's author otherwise. */
  function PromptAuthor(authorArg: Option<nat>, contextAuthor: nat): (a: nat)
    ensures authorArg.Some? && authorArg.value != 0 ==> a == authorArg.value
    ensures authorArg.None? || authorArg == Some(0) ==> a == contextAuthor
  {
    if authorArg.Some? && authorArg.value != 0 then authorArg.value else contextAuthor
  }

  /** `prompt(...)`, given the presses that arrive before the timeout: a dialog is built,
      presses are handled until one stops it, and its `value` is returned. */
  method Prompt(authorArg: Option<nat>, contextAuthor: nat, presses: seq<Press>) returns (r: Option<bool>)
    ensures r == FirstAuthorPress(presses, PromptAuthor(authorArg, contextAuthor))
  {
    var author := PromptAuthor(authorArg, contextAuthor);
    var view := new ConfirmationView(author);
    var i := 0;
    while i < |presses| && !view.stopped
      invariant 0 <= i <= |presses|
      invariant view.authorId == author
      invariant view.stopped <==> view.value.Some?
      invariant view.value.None? ==>
        FirstAuthorPress(presses, author) == FirstAuthorPress(presses[i..], author)
      invariant view.value.Some? ==> view.value == FirstAuthorPress(presses, author)
    {
      var press := presses[i];
      assert presses[i..][1..] == presses[i + 1..];
      var allowed := view.InteractionCheck(press.user);
      if allowed {
        if press.button == ConfirmButton {
          view.Confirm();
        } else {
          view.Cancel();
        }
      }
      i := i + 1;
    }
    r := view.value;
  }
}
