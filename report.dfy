/**
  The report of ammunition used (lib/ammo-manager.js lines 87-105): an HTML
  list with one item per tracked character, each holding one item per ammo
  counter, followed by the reset link.
*/
module AmmoReport {
  import opened Wrappers
  import opened JsText
  import opened JsObject
  import opened AmmoLog

  /** The `resetLink` getter: a chat button that runs the start command with reset. */
  const ResetLink := "<a href='!shaped-ammo --start --reset'>reset</a>"

  /** `t` occurs in `s`. */
  predicate Contains(s: string, t: string)
  {
    exists k :: 0 <= k <= |s| && StartsWith(s[k..], t)
  }

  /** `<li>${ammoName}: ${ammo}</li>`. */
  function CountItem(ammoName: string, count: nat): string
  {
    "<li>" + ammoName + ": " + NatToString(count) + "</li>"
  }

  /** The pieces joined in order, as the `res +=` steps of a loop append them. */
  function Concat(parts: seq<string>): string
  {
    if parts == [] then "" else Concat(parts[..|parts| - 1]) + parts[|parts| - 1]
  }

  /** The items for the counters named `names`, in that order. */
  function CountParts(counts: Dict<nat>, names: seq<string>): (parts: seq<string>)
    requires forall k :: 0 <= k < |names| ==> names[k] in counts.values
    ensures |parts| == |names|
    ensures forall k :: 0 <= k < |names| ==> parts[k] == CountItem(names[k], counts.values[names[k]])
  {
    seq(|names|, k requires 0 <= k < |names| => CountItem(names[k], counts.values[names[k]]))
  }

  /** `<li>${char.characterName}<ul>`: where a character's item starts. */
  function CharacterHeader(e: Entry): string
  {
    "<li>" + e.characterName + "<ul>"
  }

  /** One character's item: its name, then its counters in enumeration order. */
  function CharacterItem(e: Entry): string
    requires DictOk(e.ammoUsed)
  {
    CharacterHeader(e) + Concat(CountParts(e.ammoUsed, EnumOrder(e.ammoUsed.keys))) + "</ul></li>"
  }

  /** The items for the characters `ids`, in that order. */
  function CharacterParts(log: Log, ids: seq<string>): (parts: seq<string>)
    requires LogOk(log)
    requires forall k :: 0 <= k < |ids| ==> ids[k] in log.values
    ensures |parts| == |ids|
    ensures forall k :: 0 <= k < |ids| ==> parts[k] == CharacterItem(log.values[ids[k]])
  {
    seq(|ids|, k requires 0 <= k < |ids| => CharacterItem(log.values[ids[k]]))
  }

  /** The characters of the log in the order `_.each` visits them; none for an undefined log. */
  function Characters(log: Option<Log>): (ids: seq<string>)
    requires MaybeLogOk(log)
    ensures log.Some? ==> forall k :: 0 <= k < |ids| ==> ids[k] in log.value.values
  {
    if log.None? then [] else EnumOrder(log.value.keys)
  }

  /** The report text `reportAmmoUsed` builds. */
  function Render(log: Option<Log>): (r: string)
    requires MaybeLogOk(log)
    ensures StartsWith(r, "<ul>")
    ensures EndsWith(r, "</ul><br/>" + ResetLink)
  {
    var body := if log.None? then "" else Concat(CharacterParts(log.value, Characters(log)));
    Framed("<ul>", body, "</ul><br/>", ResetLink);
    "<ul>" + body + "</ul><br/>" + ResetLink
  }

  lemma Framed(open: string, body: string, close: string, link: string)
    ensures StartsWith(open + body + close + link, open)
    ensures EndsWith(open + body + close + link, close + link)
  {
    var r := open + body + close + link;
    assert r[..|open|] == open;
    assert r[|r| - |close + link|..] == close + link;
  }

  /** With nothing tracked the report is the empty list and the link. */
  lemma RenderNothingTracked(log: Option<Log>)
    requires MaybeLogOk(log)
    requires log.None? || IsEmpty(log.value)
    ensures Render(log) == "<ul></ul><br/>" + ResetLink
  {
    if log.Some? {
      assert Characters(log) == [];
    }
  }

  lemma ContainsSelf(t: string)
    ensures Contains(t, t)
  {
    assert t[0..] == t;
  }

  lemma ContainsFront(t: string, rest1: string, rest2: string)
    ensures Contains(t + rest1 + rest2, t)
  {
    assert (t + rest1 + rest2)[0..] == t + rest1 + rest2;
  }

  lemma ContainsExtended(pre: string, s: string, post: string, t: string)
    requires Contains(s, t)
    ensures Contains(pre + s + post, t)
  {
    var k :| 0 <= k <= |s| && StartsWith(s[k..], t);
    assert (pre + s + post)[|pre| + k..][..|t|] == s[k..][..|t|];
  }

  /** Each piece occurs in the joined text. */
  lemma {:induction false} ConcatContains(parts: seq<string>, p: nat, t: string)
    requires p < |parts| && Contains(parts[p], t)
    ensures Contains(Concat(parts), t)
    decreases |parts|
  {
    var init := parts[..|parts| - 1];
    var last := parts[|parts| - 1];
    if p == |parts| - 1 {
      ContainsExtended(Concat(init), last, "", t);
      assert Concat(init) + last + "" == Concat(parts);
    } else {
      assert init[p] == parts[p];
      ConcatContains(init, p, t);
      ContainsExtended("", Concat(init), last, t);
      assert "" + Concat(init) + last == Concat(parts);
    }
  }

  /** A character's item holds its header and each of its counters. */
  lemma CharacterItemContains(e: Entry, a: string)
    requires DictOk(e.ammoUsed) && a in e.ammoUsed.values
    ensures Contains(CharacterItem(e), CharacterHeader(e))
    ensures Contains(CharacterItem(e), CountItem(a, e.ammoUsed.values[a]))
  {
    var names := EnumOrder(e.ammoUsed.keys);
    assert a in names;
    var q :| 0 <= q < |names| && names[q] == a;
    var counters := Concat(CountParts(e.ammoUsed, names));
    ContainsFront(CharacterHeader(e), counters, "</ul></li>");
    var item := CountItem(a, e.ammoUsed.values[a]);
    ContainsSelf(item);
    ConcatContains(CountParts(e.ammoUsed, names), q, item);
    ContainsExtended(CharacterHeader(e), counters, "</ul></li>", item);
  }

  /** What a tracked character's item holds, the report holds. */
  lemma RenderContainsItem(log: Log, c: string, t: string)
    requires LogOk(log) && c in log.values && Contains(CharacterItem(log.values[c]), t)
    ensures Contains(Render(Some(log)), t)
  {
    var ids := Characters(Some(log));
    assert c in ids;
    var p :| 0 <= p < |ids| && ids[p] == c;
    var parts := CharacterParts(log, ids);
    ConcatContains(parts, p, t);
    var listed := "<ul>" + Concat(parts) + "</ul><br/>";
    ContainsExtended("<ul>", Concat(parts), "</ul><br/>", t);
    ContainsExtended("", listed, ResetLink, t);
    assert "" + listed == listed;
  }

  /**
    Every tracked character appears in the report under its logged name, and
    every one of its counters appears as "ammo name: count".
  */
  lemma RenderListsEveryCounter(log: Log, c: string, a: string)
    requires LogOk(log) && c in log.values && a in log.values[c].ammoUsed.values
    ensures Contains(Render(Some(log)), CharacterHeader(log.values[c]))
    ensures Contains(Render(Some(log)), CountItem(a, Total(Some(log), c, a)))
  {
    var e := log.values[c];
    CharacterItemContains(e, a);
    RenderContainsItem(log, c, CharacterHeader(e));
    RenderContainsItem(log, c, CountItem(a, Total(Some(log), c, a)));
  }
}
