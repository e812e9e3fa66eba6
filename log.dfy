/**
  One ammunition consumption and the tracking log it feeds
  (lib/ammo-manager.js lines 34-81): the quantity field of the row that names
  the ammo is decremented, never below zero, and the quantity used is added to
  the character's running total for that ammo.
*/
module AmmoLog {
  import opened Wrappers
  import opened JsText
  import opened JsParse
  import opened JsObject
  import opened RollExpression
  import opened AmmoRows

  /** A tracked character: the name it was first logged under, and rounds used per ammo name. */
  datatype Entry = Entry(characterName: string, ammoUsed: Dict<nat>)

  /** `this.ammoLog` once created: character id to entry. */
  type Log = Dict<Entry>

  /** The log and every character's counters are well-formed objects. */
  ghost predicate LogOk(log: Log)
  {
    DictOk(log) && forall c :: c in log.values ==> DictOk(log.values[c].ammoUsed)
  }

  /** An undefined log, or a well-formed one. */
  ghost predicate MaybeLogOk(log: Option<Log>)
  {
    log.None? || LogOk(log.value)
  }

  /** The source's placeholder for a character without a name, spelled as it is there. */
  const UnknownName := "unkown"

  /** `character.get('name') || 'unkown'`: an absent or empty name is replaced. */
  function DisplayName(name: Option<string>): (r: string)
    ensures |r| > 0
    ensures name.Some? && name.value != "" ==> r == name.value
    ensures name.None? || name.value == "" ==> r == UnknownName
  {
    if name.Some? && name.value != "" then name.value else UnknownName
  }

  /** The character is tracked. */
  predicate Tracked(log: Option<Log>, c: string)
  {
    log.Some? && c in log.value.values
  }

  /** The character's counters; none when the character (or the log) is missing. */
  function Counts(log: Option<Log>, c: string): Dict<nat>
  {
    if Tracked(log, c) then log.value.values[c].ammoUsed else EmptyDict()
  }

  /** The running total for character `c` and ammo `a`, 0 where either is missing (`|| 0`). */
  function Total(log: Option<Log>, c: string, a: string): nat
  {
    var counts := Counts(log, c);
    if a in counts.values then counts.values[a] else 0
  }

  /** Storing a well-formed entry keeps the log well-formed. */
  lemma PutKeepsLogOk(log: Log, c: string, e: Entry)
    requires LogOk(log) && DictOk(e.ammoUsed)
    ensures LogOk(Put(log, c, e))
  {
    var r := Put(log, c, e);
    forall c' | c' in r.values
      ensures DictOk(r.values[c'].ammoUsed)
    {
      if c' != c {
        assert r.values[c'] == log.values[c'];
      }
    }
  }

  /**
    Lines 70-75: a character missing from the log gets an entry under its
    name, or "unkown", with no counters; a tracked character's entry is kept.
  */
  function WithEntry(log: Log, c: string, name: Option<string>): (r: Log)
    requires LogOk(log)
    ensures LogOk(r) && c in r.values
  {
    if c in log.values then log
    else
      PutKeepsLogOk(log, c, Entry(DisplayName(name), EmptyDict()));
      Put(log, c, Entry(DisplayName(name), EmptyDict()))
  }

  /** Lines 77-78: the character's counter for the ammo (0 when missing) grows by `used`. */
  function AddUse(log: Log, c: string, a: string, used: nat): (r: Log)
    requires LogOk(log) && c in log.values
    ensures LogOk(r) && c in r.values
  {
    var entry := log.values[c];
    var updated := entry.(ammoUsed := Put(entry.ammoUsed, a, Total(Some(log), c, a) + used));
    PutKeepsLogOk(log, c, updated);
    Put(log, c, updated)
  }

  /** `if (_.isUndefined(this.ammoLog)) this.startTracking()`: the log, created empty when it is undefined. */
  function LogOrEmpty(log: Option<Log>): (b: Log)
    requires MaybeLogOk(log)
    ensures LogOk(b)
    ensures forall c :: c in b.values <==> Tracked(log, c)
    ensures forall c :: Tracked(log, c) ==> b.values[c] == log.value.values[c]
  {
    if log.Some? then log.value else EmptyDict()
  }

  /**
    Lines 65-78: create the log when it is undefined and the character's entry
    when it is missing, then add `used` to the counter for the ammo.
  */
  function Record(log: Option<Log>, c: string, name: Option<string>, a: string, used: nat): (r: Log)
    requires MaybeLogOk(log)
    ensures LogOk(r) && c in r.values
  {
    AddUse(WithEntry(LogOrEmpty(log), c, name), c, a, used)
  }

  /** Making sure the character has an entry changes no entry and no counter that exists. */
  lemma WithEntryEffect(log: Option<Log>, c: string, name: Option<string>, a: string)
    requires MaybeLogOk(log)
    ensures var w := WithEntry(LogOrEmpty(log), c, name);
      && w.values[c].ammoUsed == Counts(log, c)
      && Total(Some(w), c, a) == Total(log, c, a)
      && w.values[c].characterName ==
           (if Tracked(log, c) then log.value.values[c].characterName else DisplayName(name))
      && (forall c' :: c' != c ==> (c' in w.values <==> Tracked(log, c')))
      && (forall c' :: c' != c && Tracked(log, c') ==> w.values[c'] == log.value.values[c'])
  {
    var b := LogOrEmpty(log);
    var w := WithEntry(b, c, name);
    if Tracked(log, c) {
      assert w == b;
      assert w.values[c] == log.value.values[c];
    } else {
      assert c !in b.values;
      assert w.values[c] == Entry(DisplayName(name), EmptyDict());
      assert Counts(log, c) == EmptyDict();
    }
  }

  /** Adding a use replaces only the character's entry, and keeps its name. */
  lemma AddUseEffect(log: Log, c: string, a: string, used: nat)
    requires LogOk(log) && c in log.values
    ensures var r := AddUse(log, c, a, used);
      && r.values[c].characterName == log.values[c].characterName
      && (forall c' :: c' != c ==> (c' in r.values <==> c' in log.values))
      && (forall c' :: c' != c && c' in log.values ==> r.values[c'] == log.values[c'])
  {
  }

  /** Storing entry `e` for `c` makes `c`'s totals those of `e` and keeps every other character's. */
  lemma PutEntryTotals(log: Log, c: string, e: Entry, c': string, a': string)
    requires LogOk(log) && DictOk(e.ammoUsed)
    ensures Total(Some(Put(log, c, e)), c', a') ==
      if c' == c then (if a' in e.ammoUsed.values then e.ammoUsed.values[a'] else 0)
      else Total(Some(log), c', a')
  {
  }

  /** Setting one counter changes no other. */
  lemma PutCount(counts: Dict<nat>, a: string, v: nat, a': string)
    requires DictOk(counts)
    ensures (if a' in Put(counts, a, v).values then Put(counts, a, v).values[a'] else 0) ==
      if a' == a then v else if a' in counts.values then counts.values[a'] else 0
  {
  }

  /** Adding a use raises the character's total for the ammo by `used` and no other total. */
  lemma AddUseTotals(log: Log, c: string, a: string, used: nat)
    requires LogOk(log) && c in log.values
    ensures Total(Some(AddUse(log, c, a, used)), c, a) == Total(Some(log), c, a) + used
    ensures forall c', a' :: c' != c || a' != a ==>
      Total(Some(AddUse(log, c, a, used)), c', a') == Total(Some(log), c', a')
  {
    forall c', a'
      ensures Total(Some(AddUse(log, c, a, used)), c', a') ==
        if c' == c && a' == a then Total(Some(log), c, a) + used else Total(Some(log), c', a')
    {
      AddUseTotal(log, c, a, used, c', a');
    }
  }

  lemma AddUseTotal(log: Log, c: string, a: string, used: nat, c': string, a': string)
    requires LogOk(log) && c in log.values
    ensures Total(Some(AddUse(log, c, a, used)), c', a') ==
      if c' == c && a' == a then Total(Some(log), c, a) + used else Total(Some(log), c', a')
  {
    var entry := log.values[c];
    var updated := entry.(ammoUsed := Put(entry.ammoUsed, a, Total(Some(log), c, a) + used));
    PutEntryTotals(log, c, updated, c', a');
    PutCount(entry.ammoUsed, a, Total(Some(log), c, a) + used, a');
  }

  /** Adding a use leaves the ammo's counter present and creates or drops no other counter. */
  lemma AddUseCounterKey(log: Log, c: string, a: string, used: nat, a': string)
    requires LogOk(log) && c in log.values
    ensures a' in AddUse(log, c, a, used).values[c].ammoUsed.values <==>
      a' == a || a' in log.values[c].ammoUsed.values
  {
    var entry := log.values[c];
    var v := Total(Some(log), c, a) + used;
    PutEntryKeys(log, c, entry.(ammoUsed := Put(entry.ammoUsed, a, v)), a');
    PutKey(entry.ammoUsed, a, v, a');
  }

  /** The entry just stored holds the counters it was given. */
  lemma PutEntryKeys(log: Log, c: string, e: Entry, a': string)
    requires LogOk(log) && DictOk(e.ammoUsed)
    ensures a' in Put(log, c, e).values[c].ammoUsed.values <==> a' in e.ammoUsed.values
  {
  }

  /** Setting a counter adds its key and no other. */
  lemma PutKey(counts: Dict<nat>, a: string, v: nat, a': string)
    requires DictOk(counts)
    ensures a' in Put(counts, a, v).values <==> a' == a || a' in counts.values
  {
  }

  /** Making sure the character has an entry changes no total. */
  lemma WithEntryTotals(log: Option<Log>, c: string, name: Option<string>)
    requires MaybeLogOk(log)
    ensures forall c', a' :: Total(Some(WithEntry(LogOrEmpty(log), c, name)), c', a') == Total(log, c', a')
  {
    var w := WithEntry(LogOrEmpty(log), c, name);
    forall c', a'
      ensures Total(Some(w), c', a') == Total(log, c', a')
    {
      WithEntryEffect(log, c, name, a');
    }
  }

  /**
    What recording leaves: the character's entry, under the name it already
    had or under the character's name; every other entry as it was.
  */
  lemma RecordEffect(log: Option<Log>, c: string, name: Option<string>, a: string, used: nat)
    requires MaybeLogOk(log)
    ensures var r := Record(log, c, name, a, used);
      && r.values[c].characterName ==
           (if Tracked(log, c) then log.value.values[c].characterName else DisplayName(name))
      && (forall c' :: c' != c ==> (c' in r.values <==> Tracked(log, c')))
      && (forall c' :: c' != c && Tracked(log, c') ==> r.values[c'] == log.value.values[c'])
  {
    WithEntryEffect(log, c, name, a);
    AddUseEffect(WithEntry(LogOrEmpty(log), c, name), c, a, used);
  }

  /**
    Recording adds `used` to one counter and leaves every other counter as it
    was. The ammo's counter exists afterwards, even when `used` is 0, and no
    other counter of the character is created or dropped.
  */
  lemma RecordTotals(log: Option<Log>, c: string, name: Option<string>, a: string, used: nat)
    requires MaybeLogOk(log)
    ensures Total(Some(Record(log, c, name, a, used)), c, a) == Total(log, c, a) + used
    ensures forall c', a' :: c' != c || a' != a ==>
      Total(Some(Record(log, c, name, a, used)), c', a') == Total(log, c', a')
    ensures forall a' :: a' in Counts(Some(Record(log, c, name, a, used)), c).values <==>
      a' == a || a' in Counts(log, c).values
  {
    WithEntryTotals(log, c, name);
    var w := WithEntry(LogOrEmpty(log), c, name);
    AddUseTotals(w, c, a, used);
    forall a'
      ensures a' in Counts(Some(Record(log, c, name, a, used)), c).values <==>
        a' == a || a' in Counts(log, c).values
    {
      WithEntryEffect(log, c, name, a');
      AddUseCounterKey(w, c, a, used, a');
    }
  }

  /** The options of one consumption: whose ammo, which ammo, the ammo text and the message's inline rolls. */
  datatype Request = Request(characterId: string, characterName: Option<string>, ammoName: string,
                             ammo: Option<string>, inlineRolls: seq<string>)

  /** The request's inline-roll reference, if any, can be looked up (otherwise the source throws). */
  predicate RequestOk(req: Request)
  {
    RefResolves(req.ammo, req.inlineRolls)
  }

  /** The quantity one request uses. */
  function Used(req: Request): nat
    requires RequestOk(req)
  {
    QuantityUsed(req.ammo, req.inlineRolls)
  }

  /** `Math.max(0, val - ammoUsed)`: the larger of 0 and the difference. */
  function Remaining(v: int, used: nat): (r: nat)
    ensures r >= v - used
    ensures r == 0 || r == v - used
  {
    if v - used > 0 then v - used else 0
  }

  /** The character's attributes and the log, as one consumption sees them. */
  datatype State = State(attrs: seq<Attribute>, log: Option<Log>)

  /**
    `consumeAmmo` once the quantity attribute is resolved (lines 45-78): when
    there is none nothing changes, the log is not even created; otherwise that
    attribute is set to the clamped difference and the use is recorded.
  */
  function ConsumeAt(st: State, req: Request, found: Option<nat>): (r: State)
    requires MaybeLogOk(st.log)
    requires found.Some? ==> found.value < |st.attrs| && RequestOk(req)
    ensures MaybeLogOk(r.log) && |r.attrs| == |st.attrs|
    ensures found.None? ==> r == st
  {
    match found
    case None => st
    case Some(j) =>
      var used := Used(req);
      var val := ParseIntOrZero(st.attrs[j].current);
      State(st.attrs[j := Attribute(st.attrs[j].name, Num(Remaining(val, used)))],
            Some(Record(st.log, req.characterId, req.characterName, req.ammoName, used)))
  }

  /**
    A consumption through attribute `j` changes that attribute's value and
    nothing else among the attributes, stores the clamped difference in it,
    tracks the character, and raises the total for the character and ammo by
    the quantity used, all other totals unchanged.
  */
  lemma ConsumeAtEffect(st: State, req: Request, j: nat)
    requires MaybeLogOk(st.log) && RequestOk(req) && j < |st.attrs|
    ensures var r := ConsumeAt(st, req, Some(j));
      && |r.attrs| == |st.attrs|
      && r.attrs[j].name == st.attrs[j].name
      && (forall i :: 0 <= i < |st.attrs| && i != j ==> r.attrs[i] == st.attrs[i])
      && r.attrs[j].current == Num(Remaining(ParseIntOrZero(st.attrs[j].current), Used(req)))
      && Tracked(r.log, req.characterId)
      && Total(r.log, req.characterId, req.ammoName) == Total(st.log, req.characterId, req.ammoName) + Used(req)
      && (forall c, a :: c != req.characterId || a != req.ammoName ==> Total(r.log, c, a) == Total(st.log, c, a))
      && (forall a :: a in Counts(r.log, req.characterId).values <==>
            a == req.ammoName || a in Counts(st.log, req.characterId).values)
  {
    var used := Used(req);
    var rec := Record(st.log, req.characterId, req.characterName, req.ammoName, used);
    assert ConsumeAt(st, req, Some(j)).log == Some(rec);
    RecordTotals(st.log, req.characterId, req.characterName, req.ammoName, used);
  }

  /**
    `consumeAmmo`: resolve the quantity attribute, then consume through it.
    The inline roll is looked up only once an attribute is resolved.
  */
  function Consume(st: State, req: Request): (r: State)
    requires MaybeLogOk(st.log)
    requires ResolveQty(st.attrs, req.ammoName).Some? ==> RequestOk(req)
    ensures MaybeLogOk(r.log) && |r.attrs| == |st.attrs|
    ensures ResolveQty(st.attrs, req.ammoName).None? ==> r == st
  {
    ConsumeAt(st, req, ResolveQty(st.attrs, req.ammoName))
  }

  /**
    The attribute a consumption changes is the first quantity field of the
    first row whose name field holds the ammo name: no attribute of another
    row, and none outside the "repeating_ammo" rows, is touched.
  */
  lemma ConsumeWritesSelectedRowQty(st: State, req: Request, i: nat)
    requires MaybeLogOk(st.log) && RequestOk(req)
    requires i < |st.attrs| && Consume(st, req).attrs[i] != st.attrs[i]
    ensures RowTags(st.attrs)[i].Some? && IsAmmoAttribute(st.attrs[i])
    ensures IsSelectedRow(st.attrs, RowTags(st.attrs)[i].value, req.ammoName)
    ensures IsFirstQtyOfRow(st.attrs, i)
  {
    ResolveQtyFindsSelectedRow(st.attrs, req.ammoName);
    ConsumeAtKeepsOthers(st, req, ResolveQty(st.attrs, req.ammoName));
  }

  /** Consuming through `found` renames no attribute and changes no other attribute. */
  lemma ConsumeAtKeepsOthers(st: State, req: Request, found: Option<nat>)
    requires MaybeLogOk(st.log)
    requires found.Some? ==> found.value < |st.attrs| && RequestOk(req)
    ensures var r := ConsumeAt(st, req, found);
      forall i :: 0 <= i < |st.attrs| ==>
        r.attrs[i].name == st.attrs[i].name && (found != Some(i) ==> r.attrs[i] == st.attrs[i])
  {
  }

  /** Reading the quantity back after a consumption gives the clamped difference, which is never negative. */
  lemma StoredQuantityReadsBack(st: State, req: Request)
    requires MaybeLogOk(st.log) && RequestOk(req)
    requires ResolveQty(st.attrs, req.ammoName).Some?
    ensures var j := ResolveQty(st.attrs, req.ammoName).value;
      var v := ParseIntOrZero(Consume(st, req).attrs[j].current);
      v >= 0 && v == Remaining(ParseIntOrZero(st.attrs[j].current), Used(req))
  {
    var j := ResolveQty(st.attrs, req.ammoName).value;
    ConsumeAtEffect(st, req, j);
    ParseIntOfNumber(Remaining(ParseIntOrZero(st.attrs[j].current), Used(req)));
  }

  /**
    A consumption creates the log when it is undefined and the character's
    entry when it is missing: an existing entry keeps its name, a new one gets
    the character's name or "unkown"; no other character's entry is created,
    dropped or changed.
  */
  lemma ConsumeLogEntries(st: State, req: Request)
    requires MaybeLogOk(st.log) && RequestOk(req)
    requires ResolveQty(st.attrs, req.ammoName).Some?
    ensures var r := Consume(st, req);
      && Tracked(r.log, req.characterId)
      && r.log.value.values[req.characterId].characterName ==
           (if Tracked(st.log, req.characterId) then st.log.value.values[req.characterId].characterName
            else DisplayName(req.characterName))
      && (forall c :: c != req.characterId ==> (Tracked(r.log, c) <==> Tracked(st.log, c)))
      && (forall c :: c != req.characterId && Tracked(st.log, c) ==> r.log.value.values[c] == st.log.value.values[c])
  {
    RecordEffect(st.log, req.characterId, req.characterName, req.ammoName, Used(req));
  }

  /** Consume the requests one after another. */
  function ConsumeAll(st: State, reqs: seq<Request>): (r: State)
    requires MaybeLogOk(st.log) && forall k :: 0 <= k < |reqs| ==> RequestOk(reqs[k])
    ensures MaybeLogOk(r.log) && |r.attrs| == |st.attrs|
    decreases |reqs|
  {
    if reqs == [] then st else ConsumeAll(Consume(st, reqs[0]), reqs[1..])
  }

  /**
    However many consumptions run, no attribute is renamed and only quantity
    fields change.
  */
  lemma {:induction false} ConsumeAllTouchesOnlyQty(st: State, reqs: seq<Request>)
    requires MaybeLogOk(st.log) && forall k :: 0 <= k < |reqs| ==> RequestOk(reqs[k])
    ensures var r := ConsumeAll(st, reqs);
      && (forall i :: 0 <= i < |st.attrs| ==> r.attrs[i].name == st.attrs[i].name)
      && (forall i :: 0 <= i < |st.attrs| && !IsQtyField(st.attrs[i]) ==> r.attrs[i] == st.attrs[i])
    decreases |reqs|
  {
    if reqs != [] {
      var st1 := Consume(st, reqs[0]);
      ConsumeTouchesOnlyQty(st, reqs[0]);
      assert forall k :: 0 <= k < |reqs[1..]| ==> reqs[1..][k] == reqs[k + 1];
      ConsumeAllTouchesOnlyQty(st1, reqs[1..]);
      assert ConsumeAll(st, reqs) == ConsumeAll(st1, reqs[1..]);
    }
  }

  /** A consumption renames no attribute and changes no attribute that is not a quantity field. */
  lemma ConsumeTouchesOnlyQty(st: State, req: Request)
    requires MaybeLogOk(st.log)
    requires ResolveQty(st.attrs, req.ammoName).Some? ==> RequestOk(req)
    ensures var r := Consume(st, req);
      && (forall i :: 0 <= i < |st.attrs| ==> r.attrs[i].name == st.attrs[i].name)
      && (forall i :: 0 <= i < |st.attrs| && !IsQtyField(st.attrs[i]) ==> r.attrs[i] == st.attrs[i])
  {
    ConsumeAtKeepsOthers(st, req, ResolveQty(st.attrs, req.ammoName));
  }

  /** The quantities the requests use, added up. */
  function UsedSum(reqs: seq<Request>): nat
    requires forall k :: 0 <= k < |reqs| ==> RequestOk(reqs[k])
    decreases |reqs|
  {
    if reqs == [] then 0 else Used(reqs[0]) + UsedSum(reqs[1..])
  }

  /**
    Repeated consumption of one ammo by one character: the quantity field ends
    at the clamped difference between its first value and the sum of the
    uses, and the running total grows by that sum, even when the field was
    clamped at zero along the way.
  */
  lemma {:induction false} RepeatedConsumption(st: State, reqs: seq<Request>, c: string, a: string, j: nat)
    requires MaybeLogOk(st.log) && forall k :: 0 <= k < |reqs| ==> RequestOk(reqs[k])
    requires forall k :: 0 <= k < |reqs| ==> reqs[k].characterId == c && reqs[k].ammoName == a
    requires ResolveQty(st.attrs, a) == Some(j)
    ensures var r := ConsumeAll(st, reqs);
      && ResolveQty(r.attrs, a) == Some(j)
      && r.attrs[j].current ==
           (if reqs == [] then st.attrs[j].current
            else Num(Remaining(ParseIntOrZero(st.attrs[j].current), UsedSum(reqs))))
      && Total(r.log, c, a) == Total(st.log, c, a) + UsedSum(reqs)
    decreases |reqs|
  {
    if reqs != [] {
      var st1 := Consume(st, reqs[0]);
      ConsumeStep(st, reqs[0], j);
      TailRequests(reqs, c, a);
      RepeatedConsumption(st1, reqs[1..], c, a, j);
      assert ConsumeAll(st, reqs) == ConsumeAll(st1, reqs[1..]);
      var v0 := ParseIntOrZero(st.attrs[j].current);
      var m := Remaining(v0, Used(reqs[0]));
      var rest := UsedSum(reqs[1..]);
      assert UsedSum(reqs) == Used(reqs[0]) + rest;
      var r := ConsumeAll(st, reqs);
      if reqs[1..] == [] {
        assert rest == 0;
        assert r.attrs[j].current == st1.attrs[j].current == Num(m);
      } else {
        ParseIntOfNumber(m);
        assert r.attrs[j].current == Num(Remaining(m, rest));
      }
      JoinSteps(v0, Used(reqs[0]), rest, UsedSum(reqs), r.attrs[j].current, reqs[1..] == []);
    } else {
      assert ConsumeAll(st, reqs) == st;
    }
  }

  /** The requests after the first still meet the requirements. */
  lemma TailRequests(reqs: seq<Request>, c: string, a: string)
    requires reqs != [] && forall k :: 0 <= k < |reqs| ==> RequestOk(reqs[k])
    requires forall k :: 0 <= k < |reqs| ==> reqs[k].characterId == c && reqs[k].ammoName == a
    ensures forall k :: 0 <= k < |reqs[1..]| ==> RequestOk(reqs[1..][k])
    ensures forall k :: 0 <= k < |reqs[1..]| ==> reqs[1..][k].characterId == c && reqs[1..][k].ammoName == a
  {
    forall k | 0 <= k < |reqs| - 1
      ensures RequestOk(reqs[1..][k]) && reqs[1..][k].characterId == c && reqs[1..][k].ammoName == a
    {
      assert reqs[1..][k] == reqs[k + 1];
    }
  }

  /** The field after the first step and the rest: what the whole sum leaves, by ClampedSteps. */
  lemma JoinSteps(v: int, u: nat, rest: nat, total: nat, after: JsValue, last: bool)
    requires total == u + rest
    requires last ==> rest == 0 && after == Num(Remaining(v, u))
    requires !last ==> after == Num(Remaining(Remaining(v, u), rest))
    ensures after == Num(Remaining(v, total))
  {
    if !last {
      ClampedSteps(v, u, rest);
    }
  }

  /** Clamping at zero composes: using `u` and then `w` leaves what using `u + w` at once leaves. */
  lemma ClampedSteps(v: int, u: nat, w: nat)
    ensures Remaining(Remaining(v, u), w) == Remaining(v, u + w)
  {
  }

  /** One consumption through a resolved quantity field leaves it resolved. */
  lemma ConsumeStep(st: State, req: Request, j: nat)
    requires MaybeLogOk(st.log) && RequestOk(req)
    requires ResolveQty(st.attrs, req.ammoName) == Some(j)
    ensures var r := Consume(st, req);
      && ResolveQty(r.attrs, req.ammoName) == Some(j)
      && r.attrs[j].current == Num(Remaining(ParseIntOrZero(st.attrs[j].current), Used(req)))
      && Total(r.log, req.characterId, req.ammoName) == Total(st.log, req.characterId, req.ammoName) + Used(req)
  {
    var r := ConsumeAt(st, req, Some(j));
    ConsumeAtEffect(st, req, j);
    var m := Remaining(ParseIntOrZero(st.attrs[j].current), Used(req));
    assert r.attrs == st.attrs[j := Attribute(st.attrs[j].name, Num(m))];
    ResolveIgnoresQtyValues(st.attrs, j, Num(m), req.ammoName);
  }
}
