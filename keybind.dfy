/**
 * The keybinding engine: `Keybind.Info` chords, `match`, `toString` and
 * `parse` (packages/opendoc/src/util/keybind.ts).
 */
module Keybind {
  import opened Wrappers
  import opened Strings

  /** One chord. `super` is the only optional field: older chords may omit it. */
  datatype Info = Info(name: string, ctrl: bool, meta: bool, shift: bool, super: Option<bool>, leader: bool)

  /** The record `parse` starts each alternative from. */
  const Default := Info("", false, false, false, None, false)

  /** `info.super ?? false`: an absent `super` reads as false. */
  function SuperFlag(i: Info): bool
  {
    i.super.GetOr(false)
  }

  /** The chord with `super` filled in, as `match` compares it. */
  function Normalized(i: Info): Info
  {
    i.(super := Some(SuperFlag(i)))
  }

  // ---------------------------------------------------------------- match

  /**
   * `match(a, b)`: no bound chord never matches; otherwise the two chords
   * agree on every field once an absent `super` is read as false.
   */
  function Match(a: Option<Info>, b: Info): (r: bool)
    ensures r <==> a.Some? && a.value.name == b.name && a.value.ctrl == b.ctrl
                   && a.value.meta == b.meta && a.value.shift == b.shift
                   && a.value.leader == b.leader && SuperFlag(a.value) == SuperFlag(b)
  {
    a.Some? && Normalized(a.value) == Normalized(b)
  }

  /** `match` is an equivalence on defined chords. */
  lemma MatchIsEquivalence(a: Info, b: Info, c: Info)
    ensures Match(Some(a), a)
    ensures Match(Some(a), b) ==> Match(Some(b), a)
    ensures Match(Some(a), b) && Match(Some(b), c) ==> Match(Some(a), c)
  {
  }

  /** An absent `super` and `super = false` cannot be told apart by `match`. */
  lemma MatchAbsentSuper(a: Info, b: Info)
    ensures Match(Some(a.(super := None)), b) == Match(Some(a.(super := Some(false))), b)
    ensures Match(Some(b), a.(super := None)) == Match(Some(b), a.(super := Some(false)))
  {
  }

  // ---------------------------------------------------------------- toString

  /** The modifier tokens `toString` emits, in the fixed order ctrl, alt, super, shift. */
  function ModifierTokens(i: Info): seq<string>
  {
    (if i.ctrl then ["ctrl"] else [])
    + (if i.meta then ["alt"] else [])
    + (if SuperFlag(i) then ["super"] else [])
    + (if i.shift then ["shift"] else [])
  }

  /** How a key name is shown: `delete` as `del`. */
  function DisplayName(n: string): string
  {
    if n == "delete" then "del" else n
  }

  /** The key token `toString` emits: none for an empty name. */
  function KeyTokens(i: Info): seq<string>
  {
    if i.name == "" then [] else [DisplayName(i.name)]
  }

  /** The display tokens of a chord: its modifiers, then the key when it has one. */
  function DisplayTokens(i: Info): seq<string>
  {
    ModifierTokens(i) + KeyTokens(i)
  }

  /** The string `toString` returns. */
  function Display(info: Option<Info>): string
  {
    match info
    case None => ""
    case Some(i) =>
      var body := Join(DisplayTokens(i), "+");
      if !i.leader then body
      else if body != "" then "<leader> " + body
      else "<leader>"
  }

  /** `toString`: push the set modifiers and the key onto `parts`, join with `+`, prefix a leader. */
  method ToString(info: Option<Info>) returns (result: string)
    ensures result == Display(info)
  {
    if info.None? {
      return "";
    }
    var i := info.value;
    var parts: seq<string> := [];
    if i.ctrl { parts := parts + ["ctrl"]; }
    if i.meta { parts := parts + ["alt"]; }
    if i.super == Some(true) { parts := parts + ["super"]; }
    if i.shift { parts := parts + ["shift"]; }
    ghost var mods := parts;
    assert mods == ModifierTokens(i);
    if i.name != "" {
      if i.name == "delete" { parts := parts + ["del"]; }
      else { parts := parts + [i.name]; }
    }
    assert parts == mods + KeyTokens(i);
    result := Join(parts, "+");
    if i.leader {
      result := if result != "" then "<leader> " + result else "<leader>";
    }
  }

  /** Chords that `match` cannot tell apart are displayed alike. */
  lemma DisplayRespectsMatch(a: Info, b: Info)
    requires Match(Some(a), b)
    ensures Display(Some(a)) == Display(Some(b))
  {
  }

  /** `toString` is empty exactly for the undefined chord and the chord with nothing set. */
  lemma DisplayEmpty(i: Info)
    ensures Display(Some(i)) == "" <==>
            !i.leader && !i.ctrl && !i.meta && !SuperFlag(i) && !i.shift && i.name == ""
  {
    JoinEmpty(DisplayTokens(i), "+");
  }

  /** A leader chord is `<leader>` alone when nothing else is set, else `<leader> ` and the rest. */
  lemma DisplayLeader(i: Info)
    requires i.leader
    ensures DisplayTokens(i) == [] ==> Display(Some(i)) == "<leader>"
    ensures DisplayTokens(i) != [] ==>
            Display(Some(i)) == "<leader> " + Display(Some(i.(leader := false)))
  {
    JoinEmpty(DisplayTokens(i), "+");
  }

  // ---------------------------------------------------------------- parse

  /** The tokens the `switch` in `parse` treats as modifiers. */
  predicate IsModifier(t: string)
  {
    t in {"ctrl", "alt", "meta", "option", "super", "shift", "leader"}
  }

  /** The key name a non-modifier token sets: `esc` is rewritten to `escape`. */
  function KeyName(t: string): string
  {
    if t == "esc" then "escape" else t
  }

  /** The name left by the last non-modifier token, or `""` when there is none. */
  function LastKeyName(parts: seq<string>): string
  {
    if parts == [] then ""
    else if IsModifier(parts[|parts| - 1]) then LastKeyName(parts[..|parts| - 1])
    else KeyName(parts[|parts| - 1])
  }

  /**
   * The chord a token list describes: each flag is set exactly when one of
   * its own tokens occurs, and the name comes from the last key token.
   */
  function ChordOf(parts: seq<string>): Info
  {
    Info(LastKeyName(parts),
         "ctrl" in parts,
         "alt" in parts || "meta" in parts || "option" in parts,
         "shift" in parts,
         if "super" in parts then Some(true) else None,
         "leader" in parts)
  }

  /** The tokens of one alternative: `<leader>` rewritten to `leader+`, lowercased, split on `+`. */
  function Tokens(combo: string): seq<string>
  {
    Split(Lower(ReplaceAll(combo, "<leader>", "leader+")), '+')
  }

  /** The chord one comma-separated alternative parses to. */
  function ParseChord(combo: string): Info
  {
    ChordOf(Tokens(combo))
  }

  /** What `parse` returns. */
  function ParseSpec(key: string): seq<Info>
  {
    if key == "none" then []
    else
      var combos := Split(key, ',');
      seq(|combos|, k requires 0 <= k < |combos| => ParseChord(combos[k]))
  }

  lemma LastKeyNameSnoc(parts: seq<string>, t: string)
    ensures LastKeyName(parts + [t]) == if IsModifier(t) then LastKeyName(parts) else KeyName(t)
  {
    assert (parts + [t])[..|parts|] == parts;
  }

  /** Appending one token changes the chord as one turn of the `switch` in `parse` does. */
  lemma ChordOfSnoc(parts: seq<string>, t: string)
    ensures var c := ChordOf(parts);
            ChordOf(parts + [t]) ==
              if t == "ctrl" then c.(ctrl := true)
              else if t == "alt" || t == "meta" || t == "option" then c.(meta := true)
              else if t == "super" then c.(super := Some(true))
              else if t == "shift" then c.(shift := true)
              else if t == "leader" then c.(leader := true)
              else if t == "esc" then c.(name := "escape")
              else c.(name := t)
  {
    LastKeyNameSnoc(parts, t);
    var q := parts + [t];
    assert forall x :: x in q <==> x in parts || x == t;
    if t == "ctrl" {
    } else if t == "alt" || t == "meta" || t == "option" {
    } else if t == "super" {
    } else if t == "shift" {
    } else if t == "leader" {
    } else {
      assert !IsModifier(t);
    }
  }

  /** The loop of `parse` over the tokens of one alternative. */
  method ParseParts(parts: seq<string>) returns (info: Info)
    ensures info == ChordOf(parts)
  {
    info := Info("", false, false, false, None, false);
    for k := 0 to |parts|
      invariant info == ChordOf(parts[..k])
    {
      var part := parts[k];
      if part == "ctrl" {
        info := info.(ctrl := true);
      } else if part == "alt" || part == "meta" || part == "option" {
        info := info.(meta := true);
      } else if part == "super" {
        info := info.(super := Some(true));
      } else if part == "shift" {
        info := info.(shift := true);
      } else if part == "leader" {
        info := info.(leader := true);
      } else if part == "esc" {
        info := info.(name := "escape");
      } else {
        info := info.(name := part);
      }
      assert parts[..k + 1] == parts[..k] + [part];
      ChordOfSnoc(parts[..k], part);
    }
    assert parts[..|parts|] == parts;
  }

  /** `parse`: `"none"` is no binding; otherwise one chord per comma-separated alternative. */
  method Parse(key: string) returns (infos: seq<Info>)
    ensures infos == ParseSpec(key)
    ensures key == "none" ==> infos == []
    ensures key != "none" ==> |infos| == Count(key, ',') + 1
  {
    if key == "none" {
      return [];
    }
    var combos := Split(key, ',');
    infos := [];
    for k := 0 to |combos|
      invariant |infos| == k
      invariant forall j :: 0 <= j < k ==> infos[j] == ParseChord(combos[j])
    {
      var normalized := ReplaceAll(combos[k], "<leader>", "leader+");
      var parts := Split(Lower(normalized), '+');
      var info := ParseParts(parts);
      infos := infos + [info];
    }
  }

  /** The alternatives are the comma-separated pieces of the input, in order. */
  lemma ParsePieces(key: string)
    requires key != "none"
    ensures |ParseSpec(key)| == Count(key, ',') + 1
    ensures Join(Split(key, ','), ",") == key
    ensures forall k :: 0 <= k < |Split(key, ',')| ==> ',' !in Split(key, ',')[k]
    ensures forall k :: 0 <= k < |ParseSpec(key)| ==> ParseSpec(key)[k] == ParseChord(Split(key, ',')[k])
  {
    JoinSplit(key, ',');
    SplitPiecesLackSeparator(key, ',');
  }

  /** An empty alternative (as from `""`, `"a,"` or `",,"`) is the default chord. */
  lemma EmptyAlternative()
    ensures ParseChord("") == Default
    ensures ParseSpec("") == [Default]
    ensures ParseSpec(",") == [Default, Default]
  {
    assert Tokens("") == [""];
    assert Split(",", ',') == ["", ""];
  }

  /** `parse` never produces `super = false`: it is absent or true. */
  lemma ParseNeverSuperFalse(key: string)
    ensures forall k :: 0 <= k < |ParseSpec(key)| ==> ParseSpec(key)[k].super != Some(false)
  {
  }

  lemma {:induction false} LastKeyNameOrigin(parts: seq<string>)
    ensures LastKeyName(parts) == "" || LastKeyName(parts) == "escape" || LastKeyName(parts) in parts
  {
    if parts != [] {
      var init := parts[..|parts| - 1];
      LastKeyNameOrigin(init);
      assert forall t :: t in init ==> t in parts;
    }
  }

  /** Parsed names are lower-case (ASCII). */
  lemma ParsedNameIsLower(combo: string)
    ensures IsLower(ParseChord(combo).name)
  {
    var s := Lower(ReplaceAll(combo, "<leader>", "leader+"));
    LowerIsLower(ReplaceAll(combo, "<leader>", "leader+"));
    var parts := Split(s, '+');
    LastKeyNameOrigin(parts);
    var n := LastKeyName(parts);
    if n in parts {
      var k :| 0 <= k < |parts| && parts[k] == n;
      forall ch | ch in n ensures !IsUpper(ch) {
        SplitChars(s, '+', k, ch);
      }
    }
  }

  /** A modifier token never changes the name. */
  lemma {:induction false} LastKeyNameSkipsModifier(ps: seq<string>, m: string, qs: seq<string>)
    requires IsModifier(m)
    ensures LastKeyName(ps + [m] + qs) == LastKeyName(ps + qs)
    decreases |qs|
  {
    if qs == [] {
      LastKeyNameSnoc(ps, m);
      assert ps + [m] + qs == ps + [m];
      assert ps + qs == ps;
    } else {
      var init, t := qs[..|qs| - 1], qs[|qs| - 1];
      assert ps + [m] + qs == (ps + [m] + init) + [t];
      assert ps + qs == (ps + init) + [t];
      LastKeyNameSnoc(ps + [m] + init, t);
      LastKeyNameSnoc(ps + init, t);
      LastKeyNameSkipsModifier(ps, m, init);
    }
  }

  /** `alt`, `meta` and `option` are interchangeable wherever they appear. */
  lemma MetaAliases(ps: seq<string>, qs: seq<string>)
    ensures ChordOf(ps + ["alt"] + qs) == ChordOf(ps + ["meta"] + qs)
    ensures ChordOf(ps + ["option"] + qs) == ChordOf(ps + ["meta"] + qs)
    ensures ChordOf(ps + ["meta"] + qs).meta
  {
    LastKeyNameSkipsModifier(ps, "alt", qs);
    LastKeyNameSkipsModifier(ps, "meta", qs);
    LastKeyNameSkipsModifier(ps, "option", qs);
  }

  /** The last key token decides the name; `esc` gives `escape`. */
  lemma {:induction false} LastKeyTokenWins(ps: seq<string>, t: string, qs: seq<string>)
    requires !IsModifier(t)
    requires forall k :: 0 <= k < |qs| ==> IsModifier(qs[k])
    ensures ChordOf(ps + [t] + qs).name == KeyName(t)
    ensures t == "esc" ==> ChordOf(ps + [t] + qs).name == "escape"
    decreases |qs|
  {
    if qs == [] {
      LastKeyNameSnoc(ps, t);
      assert ps + [t] + qs == ps + [t];
    } else {
      var init, m := qs[..|qs| - 1], qs[|qs| - 1];
      assert ps + [t] + qs == (ps + [t] + init) + [m];
      LastKeyNameSnoc(ps + [t] + init, m);
      LastKeyTokenWins(ps, t, init);
    }
  }

  /** A leading `<leader>` becomes a separate `leader` token. */
  lemma TokensAfterLeader(rest: string)
    requires IsLower(rest) && !Contains(rest, "<leader>")
    ensures Tokens("<leader>" + rest) == ["leader"] + Split(rest, '+')
  {
    ReplaceLeaderPrefix(rest);
    LowerLeaderPrefix(rest);
    SplitLeaderPrefix(rest);
  }

  lemma ReplaceLeaderPrefix(rest: string)
    requires !Contains(rest, "<leader>")
    ensures ReplaceAll("<leader>" + rest, "<leader>", "leader+") == "leader+" + rest
  {
    var s := "<leader>" + rest;
    assert StartsWith(s, "<leader>");
    assert s[|"<leader>"|..] == rest;
    ReplaceAbsent(rest, "<leader>", "leader+");
  }

  lemma LowerLeaderPrefix(rest: string)
    requires IsLower(rest)
    ensures Lower("leader+" + rest) == "leader+" + rest
  {
    LowerAppend("leader+", rest);
    LowerIsLower("leader+");
    LowerIsLower(rest);
  }

  lemma SplitLeaderPrefix(rest: string)
    ensures Split("leader+" + rest, '+') == ["leader"] + Split(rest, '+')
  {
    assert "leader+" + rest == "leader" + ['+'] + rest;
    SplitAtFirst("leader", '+', rest);
  }

  /** `<leader>` followed by a plain key token is a leader chord on that key. */
  lemma LeaderPrefix(key: string)
    requires IsLower(key) && '+' !in key && !Contains(key, "<leader>") && !IsModifier(key)
    ensures ParseChord("<leader>" + key) == Default.(leader := true, name := KeyName(key))
  {
    TokensAfterLeader(key);
    SplitNoSeparator(key, '+');
    LastKeyNameSnoc(["leader"], key);
    assert ["leader"] + [key] == ["leader", key];
  }

  lemma UpperLeaderNotReplaced()
    ensures ReplaceAll("<LEADER>g", "<leader>", "leader+") == "<LEADER>g"
  {
    var u := "<LEADER>g";
    assert !StartsWith(u, "<leader>") by { assert u[1] != "<leader>"[1]; }
    NoLeaderIn(u[1..]);
    ReplaceAbsent(u, "<leader>", "leader+");
  }

  lemma UpperLeaderLowered()
    ensures Lower("<LEADER>g") == "<leader>g"
  {
    LowerAppend("<LEADER>", "g");
    assert "<LEADER>" + "g" == "<LEADER>g";
    assert Lower("g") == "g";
    assert Lower("<LEADER>") == "<leader>";
  }

  lemma UpperLeaderTokens()
    ensures Tokens("<LEADER>g") == ["<leader>g"]
  {
    UpperLeaderNotReplaced();
    UpperLeaderLowered();
    SplitNoSeparator("<leader>g", '+');
  }

  /** A single key token is a chord on that key with no modifiers. */
  lemma ChordOfSingleKey(t: string)
    requires !IsModifier(t)
    ensures ChordOf([t]) == Default.(name := KeyName(t))
  {
    LastKeyNameSnoc([], t);
    assert [] + [t] == [t];
  }

  lemma UpperLeaderChord()
    ensures ParseChord("<LEADER>g") == Default.(name := "<leader>g")
  {
    UpperLeaderTokens();
    ChordOfSingleKey("<leader>g");
  }

  lemma LowerLeaderChord()
    ensures ParseChord("<leader>g") == Default.(leader := true, name := "g")
  {
    NoLeaderIn("g");
    LeaderPrefix("g");
    assert "<leader>" + "g" == "<leader>g";
  }

  /** `<leader>` is rewritten before lowercasing, so only the lower-case spelling is recognised. */
  lemma LeaderSyntax()
    ensures ParseChord("<leader>g") == Default.(leader := true, name := "g")
    ensures ParseChord("<LEADER>g") == Default.(name := "<leader>g")
  {
    LowerLeaderChord();
    UpperLeaderChord();
  }

  /** A name for which `toString` then `parse` gives the chord back. */
  predicate RoundTripName(n: string)
  {
    && IsLower(n) && '+' !in n && ',' !in n && !Contains(n, "<leader>")
    && n != "delete" && n != "esc" && n != "none" && !IsModifier(n)
  }

  /** A name `toString` can emit as one token that `parse` reads back as one token. */
  predicate PlainName(n: string)
  {
    IsLower(n) && '+' !in n && ',' !in n && !Contains(n, "<leader>")
  }

  /** The words `toString` emits for modifiers are plain modifier tokens. */
  lemma ModifierWord(w: string)
    requires w == "ctrl" || w == "alt" || w == "super" || w == "shift"
    ensures PlainName(w) && IsModifier(w) && w != "none"
  {
    NoLeaderIn(w);
  }

  lemma ModifierTokensWords(i: Info)
    ensures forall t :: t in ModifierTokens(i) ==> t == "ctrl" || t == "alt" || t == "super" || t == "shift"
  {
  }

  lemma {:induction false} LastKeyNameOfModifiers(parts: seq<string>)
    requires forall k :: 0 <= k < |parts| ==> IsModifier(parts[k])
    ensures LastKeyName(parts) == ""
  {
    if parts != [] {
      LastKeyNameOfModifiers(parts[..|parts| - 1]);
    }
  }

  /** Every display token is a plain token when the name is one (`del` included). */
  lemma DisplayTokensPlain(i: Info)
    requires PlainName(i.name)
    ensures forall k :: 0 <= k < |DisplayTokens(i)| ==> PlainName(DisplayTokens(i)[k]) && DisplayTokens(i)[k] != ""
  {
    var toks := DisplayTokens(i);
    ModifierTokensWords(i);
    NoLeaderIn("del");
    forall k | 0 <= k < |toks| ensures PlainName(toks[k]) && toks[k] != "" {
      if k < |ModifierTokens(i)| {
        assert toks[k] in ModifierTokens(i);
        ModifierWord(toks[k]);
      }
    }
  }

  /** Without a leader, the displayed string splits back into the display tokens. */
  lemma DisplayedTokens(i: Info)
    requires PlainName(i.name)
    ensures var body := Join(DisplayTokens(i), "+");
            && ',' !in body
            && !Contains(body, "<leader>")
            && IsLower(body)
            && Tokens(body) == (if DisplayTokens(i) == [] then [""] else DisplayTokens(i))
  {
    var toks := DisplayTokens(i);
    var body := Join(toks, "+");
    DisplayTokensPlain(i);
    JoinChars(toks, "+", ',');
    ContainsJoin(toks, '+', "<leader>");
    ReplaceAbsent(body, "<leader>", "leader+");
    forall ch | IsUpper(ch) ensures ch !in body {
      JoinChars(toks, "+", ch);
    }
    LowerIsLower(body);
    if toks != [] {
      SplitJoin(toks, '+');
    }
  }

  /** Which modifier words `toString` emits: each flag gives its own word and nothing else. */
  lemma ModifierMembership(i: Info)
    ensures ("ctrl" in ModifierTokens(i)) == i.ctrl
    ensures ("alt" in ModifierTokens(i)) == i.meta
    ensures ("super" in ModifierTokens(i)) == SuperFlag(i)
    ensures ("shift" in ModifierTokens(i)) == i.shift
    ensures "meta" !in ModifierTokens(i) && "option" !in ModifierTokens(i) && "leader" !in ModifierTokens(i)
  {
    ModifierTokensWords(i);
  }

  /** The modifier tokens alone describe the flags and no name. */
  lemma ChordOfModifiers(i: Info)
    ensures ChordOf(ModifierTokens(i))
            == Info("", i.ctrl, i.meta, i.shift, if SuperFlag(i) then Some(true) else None, false)
  {
    var mods := ModifierTokens(i);
    ModifierMembership(i);
    ModifierTokensWords(i);
    forall k | 0 <= k < |mods| ensures IsModifier(mods[k]) {
      assert mods[k] in mods;
    }
    LastKeyNameOfModifiers(mods);
  }

  /** The display tokens describe the chord again: same flags, and the displayed name. */
  lemma ChordOfDisplayTokens(i: Info)
    requires !IsModifier(i.name)
    ensures ChordOf(DisplayTokens(i))
            == Info(KeyName(DisplayName(i.name)), i.ctrl, i.meta, i.shift,
                    if SuperFlag(i) then Some(true) else None, false)
  {
    var mods := ModifierTokens(i);
    ChordOfModifiers(i);
    if i.name == "" {
      assert DisplayTokens(i) == mods;
    } else {
      ChordOfSnoc(mods, DisplayName(i.name));
    }
  }

  /** With fewer than one alternative separator, `parse` gives one chord. */
  lemma SingleAlternative(key: string)
    requires key != "none" && ',' !in key
    ensures ParseSpec(key) == [ParseChord(key)]
  {
    SplitNoSeparator(key, ',');
  }

  /** The joined display tokens of a chord with something set, as `parse` meets them. */
  lemma DisplayBody(i: Info)
    requires DisplayTokens(i) != [] && PlainName(i.name)
    ensures var body := Join(DisplayTokens(i), "+");
            && body != [] && IsLower(body) && !Contains(body, "<leader>") && ',' !in body
            && Split(body, '+') == DisplayTokens(i)
  {
    var toks := DisplayTokens(i);
    DisplayedTokens(i);
    DisplayTokensPlain(i);
    JoinEmpty(toks, "+");
    SplitJoin(toks, '+');
  }

  /** A displayed chord without a leader is not the word `none`, unless its name is. */
  lemma DisplayedNotNone(i: Info)
    requires PlainName(i.name) && i.name != "none"
    ensures Join(DisplayTokens(i), "+") != "none"
  {
    var toks := DisplayTokens(i);
    if toks != [] {
      DisplayBody(i);
      SplitNoSeparator("none", '+');
      ModifierTokensWords(i);
      assert toks != ["none"];
    }
  }

  /** The empty token list and the one empty token describe the same chord. */
  lemma ChordOfEmptyToken()
    ensures ChordOf([""]) == ChordOf([])
  {
    LastKeyNameSnoc([], "");
    assert [] + [""] == [""];
  }

  /** The alternatives of a displayed non-leader chord. */
  lemma ParseDisplayed(i: Info)
    requires !i.leader && PlainName(i.name) && i.name != "none"
    ensures ParseSpec(Display(Some(i))) == [ChordOf(DisplayTokens(i))]
  {
    var body := Join(DisplayTokens(i), "+");
    assert Display(Some(i)) == body;
    DisplayedTokens(i);
    DisplayedNotNone(i);
    SingleAlternative(body);
    ChordOfEmptyToken();
  }

  /**
   * `parse(toString(i))` gives back one chord matching `i`, for a non-leader
   * chord whose name is lower-case, free of `+`, `,` and `<leader>`, and not
   * `delete`, `esc`, `none` or a modifier word.
   */
  lemma RoundTrip(i: Info)
    requires !i.leader && RoundTripName(i.name)
    ensures |ParseSpec(Display(Some(i)))| == 1
    ensures Match(Some(i), ParseSpec(Display(Some(i)))[0])
  {
    ParseDisplayed(i);
    ChordOfDisplayTokens(i);
  }

  lemma AliasNamesPlain()
    ensures PlainName("delete") && PlainName("esc") && !IsModifier("delete") && !IsModifier("esc")
  {
    DeletePlain();
    EscPlain();
  }

  lemma DeletePlain()
    ensures PlainName("delete") && !IsModifier("delete")
  {
    NoLeaderIn("delete");
  }

  lemma EscPlain()
    ensures PlainName("esc") && !IsModifier("esc")
  {
    NoLeaderIn("esc");
  }

  /** A string without `<` cannot contain `<leader>`. */
  lemma NoLeaderIn(w: string)
    requires '<' !in w
    ensures !Contains(w, "<leader>")
  {
    if Contains(w, "<leader>") { ContainsFirstChar(w, "<leader>"); }
  }

  /** `delete` is displayed as `del` and `esc` parses to `escape`, so neither name round-trips. */
  lemma KeyAliasesDoNotRoundTrip(i: Info)
    requires !i.leader && (i.name == "delete" || i.name == "esc")
    ensures |ParseSpec(Display(Some(i)))| == 1
    ensures ParseSpec(Display(Some(i)))[0].name == (if i.name == "delete" then "del" else "escape")
    ensures !Match(Some(i), ParseSpec(Display(Some(i)))[0])
  {
    AliasNamesPlain();
    ParseDisplayed(i);
    ChordOfDisplayTokens(i);
  }

  /** After `<leader> `, the space becomes part of the first token. */
  lemma TokensAfterLeaderSpace(body: string)
    requires IsLower(body) && !Contains(body, "<leader>") && body != []
    ensures var toks := Split(body, '+');
            Tokens("<leader> " + body) == ["leader", " " + toks[0]] + toks[1..]
  {
    SpacedBody(body);
    TokensAfterLeader(" " + body);
    LeaderSpaceAssociates(body);
    SplitSpaced(body);
  }

  /** A concatenation identity, stated apart so that it is proved without the surrounding facts. */
  lemma LeaderSpaceAssociates(body: string)
    ensures "<leader> " + body == "<leader>" + (" " + body)
  {
  }

  lemma SpacedBody(body: string)
    requires IsLower(body) && !Contains(body, "<leader>")
    ensures IsLower(" " + body) && !Contains(" " + body, "<leader>")
  {
    var rest := " " + body;
    assert !StartsWith(rest, "<leader>") by {
      assert rest[0] != "<leader>"[0];
    }
    assert rest[1..] == body;
  }

  /** A leading space joins the first piece. */
  lemma SplitSpaced(body: string)
    ensures var toks := Split(body, '+');
            Split(" " + body, '+') == [" " + toks[0]] + toks[1..]
  {
    assert (" " + body)[1..] == body;
  }

  /** The displayed leader chord splits into `leader`, the first token with a leading space, and the rest. */
  lemma LeaderShownTokens(i: Info)
    requires i.leader && DisplayTokens(i) != [] && PlainName(i.name)
    ensures var shown := Display(Some(i));
            && shown == "<leader> " + Join(DisplayTokens(i), "+")
            && ',' !in shown && shown != "none"
            && Tokens(shown) == LeaderParts(i)
  {
    var body := Join(DisplayTokens(i), "+");
    DisplayBody(i);
    LeaderShownString(i);
    TokensAfterLeaderSpace(body);
    LeaderPrefixedAlternative(body);
  }

  lemma LeaderShownString(i: Info)
    requires i.leader && DisplayTokens(i) != []
    ensures Display(Some(i)) == "<leader> " + Join(DisplayTokens(i), "+")
  {
    JoinEmpty(DisplayTokens(i), "+");
  }

  /** `<leader> ` before a comma-free body is one alternative, and not `none`. */
  lemma LeaderPrefixedAlternative(body: string)
    requires ',' !in body
    ensures ',' !in "<leader> " + body && "<leader> " + body != "none"
  {
    var shown := "<leader> " + body;
    assert forall ch :: ch in shown ==> ch in "<leader> " || ch in body;
    assert shown[0] == '<';
  }

  /** The tokens of a displayed leader chord: the space after `<leader>` sticks to the first token. */
  lemma ParseLeaderDisplayed(i: Info)
    requires i.leader && DisplayTokens(i) != [] && PlainName(i.name)
    ensures ParseSpec(Display(Some(i))) == [ChordOf(LeaderParts(i))]
  {
    LeaderShownTokens(i);
    SingleAlternative(Display(Some(i)));
  }

  /** With no modifiers, the name picks up the space: ` g` instead of `g`. */
  lemma LeaderKeyGainsSpace(i: Info)
    requires ModifierTokens(i) == [] && i.name != ""
    ensures var toks := DisplayTokens(i);
            ChordOf(LeaderParts(i)).name == " " + DisplayName(i.name) != i.name
  {
    var first := " " + DisplayName(i.name);
    assert DisplayTokens(i) == [DisplayName(i.name)];
    assert first[0] == ' ';
    assert !IsModifier(first) && first != "esc";
    assert ["leader", first] + [] == ["leader"] + [first];
    LastKeyNameSnoc(["leader"], first);
  }

  /** The tokens a displayed leader chord parses to, as `parse` sees them. */
  function LeaderParts(i: Info): seq<string>
    requires DisplayTokens(i) != []
  {
    ["leader", " " + DisplayTokens(i)[0]] + DisplayTokens(i)[1..]
  }

  /** A token other than `leader` that does not start with a space is in the leader parts only after the first. */
  lemma InLeaderParts(i: Info, w: string)
    requires DisplayTokens(i) != [] && w != "leader" && w != [] && w[0] != ' '
    ensures w in LeaderParts(i) <==> w in DisplayTokens(i)[1..]
  {
    var first := " " + DisplayTokens(i)[0];
    assert first[0] == ' ';
  }

  /** A modifier word shows up among the display tokens only as a modifier token. */
  lemma DisplayMembership(i: Info, w: string)
    requires IsModifier(w) && !IsModifier(DisplayName(i.name))
    ensures w in DisplayTokens(i) <==> w in ModifierTokens(i)
  {
  }

  /** A modifier word that leads the display tokens and does not recur is lost to the space. */
  lemma LostModifier(i: Info, j: Info, w: string)
    requires IsModifier(w) && w != "leader" && !IsModifier(DisplayName(j.name))
    requires DisplayTokens(i) == [w] + DisplayTokens(j) && w !in ModifierTokens(j)
    ensures w !in LeaderParts(i)
  {
    InLeaderParts(i, w);
    assert DisplayTokens(i)[1..] == DisplayTokens(j);
    DisplayMembership(j, w);
  }

  lemma LostCtrl(i: Info)
    requires i.ctrl && !IsModifier(DisplayName(i.name))
    ensures !ChordOf(LeaderParts(i)).ctrl
  {
    var j := i.(ctrl := false);
    assert ModifierTokens(i) == ["ctrl"] + ModifierTokens(j);
    assert DisplayTokens(i) == ["ctrl"] + DisplayTokens(j);
    ModifierMembership(j);
    LostModifier(i, j, "ctrl");
  }

  lemma LostAlt(i: Info)
    requires !i.ctrl && i.meta && !IsModifier(DisplayName(i.name))
    ensures !ChordOf(LeaderParts(i)).meta
  {
    var j := i.(meta := false);
    assert ModifierTokens(i) == ["alt"] + ModifierTokens(j);
    assert DisplayTokens(i) == ["alt"] + DisplayTokens(j);
    ModifierMembership(j);
    ModifierMembership(i);
    LostModifier(i, j, "alt");
    InLeaderParts(i, "meta");
    InLeaderParts(i, "option");
    DisplayMembership(i, "meta");
    DisplayMembership(i, "option");
  }

  lemma LostSuper(i: Info)
    requires !i.ctrl && !i.meta && SuperFlag(i) && !IsModifier(DisplayName(i.name))
    ensures ChordOf(LeaderParts(i)).super == None
  {
    var j := i.(super := None);
    assert ModifierTokens(i) == ["super"] + ModifierTokens(j);
    assert DisplayTokens(i) == ["super"] + DisplayTokens(j);
    ModifierMembership(j);
    LostModifier(i, j, "super");
  }

  lemma LostShift(i: Info)
    requires !i.ctrl && !i.meta && !SuperFlag(i) && i.shift && !IsModifier(DisplayName(i.name))
    ensures !ChordOf(LeaderParts(i)).shift
  {
    var j := i.(shift := false);
    assert ModifierTokens(i) == ["shift"] + ModifierTokens(j);
    assert DisplayTokens(i) == ["shift"] + DisplayTokens(j);
    ModifierMembership(j);
    LostModifier(i, j, "shift");
  }

  /** `<leader>` alone reads as the tokens `leader` and the empty name. */
  lemma LeaderAloneTokens()
    ensures Tokens("<leader>") == ["leader", ""]
  {
    TokensAfterLeader("");
    assert "<leader>" + "" == "<leader>";
    assert Split("", '+') == [""];
  }

  /** The word `<leader>` alone parses to the leader chord with nothing else set. */
  lemma ParseLeaderAlone()
    ensures ParseSpec("<leader>") == [Default.(leader := true)]
  {
    LeaderAloneTokens();
    SingleAlternative("<leader>");
    ChordOfLeaderAlone();
  }

  lemma ChordOfLeaderAlone()
    ensures ChordOf(["leader", ""]) == Default.(leader := true)
  {
    LastKeyNameSnoc(["leader"], "");
    assert ["leader"] + [""] == ["leader", ""];
  }

  /** A leader chord with nothing else set has no flag and no name. */
  lemma LeaderAloneDisplay(i: Info)
    requires i.leader && DisplayTokens(i) == []
    ensures Display(Some(i)) == "<leader>"
    ensures !i.ctrl && !i.meta && !SuperFlag(i) && !i.shift && i.name == ""
  {
    DisplayLeader(i);
  }

  /** The one leader chord that does round-trip: the leader alone comes back as itself. */
  lemma LeaderAloneRoundTrips(i: Info)
    requires i.leader && DisplayTokens(i) == []
    ensures ParseSpec(Display(Some(i))) == [Default.(leader := true)]
    ensures Match(Some(i), ParseSpec(Display(Some(i)))[0])
  {
    LeaderAloneDisplay(i);
    ParseLeaderAlone();
  }

  /**
   * For a leader chord with a key or a modifier, `parse(toString(i))` does not
   * give `i` back: the space after `<leader>` joins the next token, which then
   * no longer reads as a modifier and may become the name.
   */
  lemma LeaderRoundTripFails(i: Info)
    requires i.leader && DisplayTokens(i) != [] && PlainName(i.name) && !IsModifier(i.name)
    ensures |ParseSpec(Display(Some(i)))| == 1
    ensures ParseSpec(Display(Some(i)))[0].leader
    ensures !Match(Some(i), ParseSpec(Display(Some(i)))[0])
  {
    ParseLeaderDisplayed(i);
    assert !IsModifier(DisplayName(i.name));
    if i.ctrl {
      LostCtrl(i);
    } else if i.meta {
      LostAlt(i);
    } else if SuperFlag(i) {
      LostSuper(i);
    } else if i.shift {
      LostShift(i);
    } else {
      LeaderKeyGainsSpace(i);
    }
  }
}
