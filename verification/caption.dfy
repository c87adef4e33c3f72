/**
 * The clean-up `ImageCaptioner.generate_short_caption` applies to a caption
 * before it is used as alt text (backend/app/core/image_captioner.py): strip
 * it, drop one filler prefix the captioning model tends to add, capitalise
 * the first letter and make sure it ends like a sentence. The caption
 * itself, produced by the model, is a parameter.
 */
module Caption {
  import opened Wrappers
  import opened Text

  /** The filler openings removed from a caption, tried in this order. */
  const Prefixes: seq<string> :=
    ["a picture of ", "an image of ", "a photo of ", "this is ", "there is ", "here is "]

  /** `s.lower().startswith(p)`. */
  predicate StartsLower(s: string, p: string) {
    StartsWith(LowerStr(s), p)
  }

  /** The position of the first prefix from `from` on that `s` starts with, case-insensitively. */
  function FirstPrefix(s: string, ps: seq<string>, from: nat): (r: Option<nat>)
    ensures r.Some? ==> from <= r.value < |ps| && StartsLower(s, ps[r.value])
    ensures r.Some? ==> forall j :: from <= j < r.value ==> !StartsLower(s, ps[j])
    ensures r.None? ==> forall j :: from <= j < |ps| ==> !StartsLower(s, ps[j])
    decreases |ps| - from
  {
    if from >= |ps| then None
    else if StartsLower(s, ps[from]) then Some(from)
    else FirstPrefix(s, ps, from + 1)
  }

  /**
   * The caption without the first prefix of `ps` it starts with
   * (case-insensitively), or unchanged when it starts with none.
   */
  function DropFirst(s: string, ps: seq<string>): (r: string)
    requires forall j :: 0 <= j < |ps| ==> ps[j] != []
    ensures |r| <= |s| && r == s[|s| - |r|..]
    ensures r == s <==> forall j :: 0 <= j < |ps| ==> !StartsLower(s, ps[j])
    ensures r != s ==> exists i :: (0 <= i < |ps| && StartsLower(s, ps[i]) && r == s[|ps[i]|..]
      && forall j :: 0 <= j < i ==> !StartsLower(s, ps[j]))
  {
    match FirstPrefix(s, ps, 0)
    case None => s
    case Some(i) => s[|ps[i]|..]
  }

  /** The prefix loop of the clean-up, over the listed fillers. */
  function DropPrefix(s: string): (r: string)
    ensures r == s <==> forall j :: 0 <= j < |Prefixes| ==> !StartsLower(s, Prefixes[j])
    ensures r != s ==> exists i :: (0 <= i < |Prefixes| && StartsLower(s, Prefixes[i]) && r == s[|Prefixes[i]|..]
      && forall j :: 0 <= j < i ==> !StartsLower(s, Prefixes[j]))
  {
    PrefixesShape();
    DropFirst(s, Prefixes)
  }

  /** Every listed filler is non-empty and ends in a blank. */
  lemma PrefixesShape()
    ensures forall j :: 0 <= j < |Prefixes| ==> |Prefixes[j]| > 0 && Prefixes[j][|Prefixes[j]| - 1] == ' '
  {
  }

  /** `s[0].upper() + s[1:] if s else ""`. */
  function Capitalize(s: string): (r: string)
    ensures |r| == |s|
    ensures s != [] ==> r[0] == Upper(s[0]) && r[1..] == s[1..]
  {
    if s == [] then [] else [Upper(s[0])] + s[1..]
  }

  predicate IsTerminal(c: char) {
    c == '.' || c == '!' || c == '?'
  }

  /** A full stop appended unless the text is empty or already ends in `.`, `!` or `?`. */
  function Punctuate(s: string): (r: string)
    ensures r == [] <==> s == []
    ensures r != [] ==> IsTerminal(r[|r| - 1])
    ensures |s| <= |r| <= |s| + 1 && r[..|s|] == s
    ensures |r| == |s| + 1 <==> (s != [] && !IsTerminal(s[|s| - 1]))
  {
    if s != [] && !IsTerminal(s[|s| - 1]) then s + "." else s
  }

  /** What `generate_short_caption` returns for the caption the model produced. */
  function ShortCaption(caption: Option<string>): (r: Option<string>)
    ensures r.None? <==> caption.None?
    ensures caption == Some("") ==> r == Some("")
  {
    match caption
    case None => None
    case Some(c) =>
      if c == "" then caption
      else Some(Punctuate(Capitalize(DropPrefix(Strip(c)))))
  }

  // ---------------------------------------------------------------- properties

  /**
   * Removing a prefix that ends in a blank from a caption that does not end
   * in one never empties it.
   */
  lemma {:induction false} DropFirstNonEmpty(s: string, ps: seq<string>)
    requires forall j :: 0 <= j < |ps| ==> |ps[j]| > 0 && ps[j][|ps[j]| - 1] == ' '
    requires s != [] && !IsSpace(s[|s| - 1])
    ensures DropFirst(s, ps) != []
  {
    var r := DropFirst(s, ps);
    if r != s {
      var i :| 0 <= i < |ps| && StartsLower(s, ps[i]) && r == s[|ps[i]|..];
      var p := ps[i];
      if |p| == |s| {
        assert false;
      }
    }
  }

  /** The clean-up never empties a stripped, non-empty caption: every filler ends in a blank. */
  lemma DropPrefixNonEmpty(s: string)
    requires s != [] && !IsSpace(s[|s| - 1])
    ensures DropPrefix(s) != []
  {
    PrefixesShape();
    DropFirstNonEmpty(s, Prefixes);
  }

  /**
   * A caption with any non-blank character comes out non-empty, ending in
   * `.`, `!` or `?`; a caption of blanks only comes out empty.
   */
  lemma ShortCaptionEnds(c: string)
    requires c != ""
    ensures ShortCaption(Some(c)).Some?
    ensures var r := ShortCaption(Some(c)).value;
      (Strip(c) == [] ==> r == []) && (Strip(c) != [] ==> r != [] && IsTerminal(r[|r| - 1]))
  {
    var t := Strip(c);
    if t != [] {
      DropPrefixNonEmpty(t);
    } else {
      assert DropPrefix(t) == [];
    }
  }

  /**
   * Beyond the prefix, only the first character changes (to upper case), and
   * at most a full stop is added: the rest of the caption is kept as it was.
   */
  lemma ShortCaptionKeepsRest(c: string)
    requires c != "" && Strip(c) != []
    ensures ShortCaption(Some(c)).Some?
    ensures var t, r := DropPrefix(Strip(c)), ShortCaption(Some(c)).value;
      && t != [] && r[0] == Upper(t[0]) && r[1..|t|] == t[1..]
      && (r == Capitalize(t) || r == Capitalize(t) + ".")
  {
    DropPrefixNonEmpty(Strip(c));
    FinishKeepsRest(DropPrefix(Strip(c)));
  }

  /** The last two steps of the clean-up change the first character and may add a full stop. */
  lemma FinishKeepsRest(t: string)
    requires t != []
    ensures var r := Punctuate(Capitalize(t));
      r[0] == Upper(t[0]) && r[1..|t|] == t[1..] && (r == Capitalize(t) || r == Capitalize(t) + ".")
  {
    var u := Capitalize(t);
    var r := Punctuate(u);
    assert r[..|u|] == u;
    assert r[1..|t|] == u[1..|t|];
  }

  /** Punctuation is added once: the clean-up's last step changes nothing the second time. */
  lemma PunctuateIdempotent(s: string)
    ensures Punctuate(Punctuate(s)) == Punctuate(s)
  {
    if Punctuate(s) != s {
      assert Punctuate(s)[|s|] == '.';
    }
  }

  /** Only one prefix is removed: a caption made of two fillers keeps the second one. */
  lemma OnePrefixOnly(rest: string)
    ensures DropPrefix("a picture of " + "this is " + rest) == "this is " + rest
  {
    var s := "a picture of " + "this is " + rest;
    assert StartsLower(s, Prefixes[0]) by {
      assert LowerStr(s)[..13] == "a picture of ";
    }
    assert s[13..] == "this is " + rest;
  }
}
