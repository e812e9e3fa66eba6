/**
  The `AmmoManager` module object (lib/ammo-manager.js): it owns the tracking
  log, consumes ammunition from a character's attributes, answers the `!shaped-ammo`
  command's options, and reports what has been used. Messages the source sends
  to chat through `this.report` are returned instead.
*/
module AmmoManagement {
  import opened Wrappers
  import opened JsText
  import opened JsParse
  import opened JsObject
  import opened AmmoRows
  import opened AmmoLog
  import opened AmmoReport

  /** The boolean options of the `!shaped-ammo` command. */
  datatype Options = Options(start: bool, report: bool, reset: bool)

  /** A chat message: `this.report(title, text)`. */
  datatype Message = Message(title: string, text: string)

  const Title := "Ammo Manager"

  /** The answer to `--start` while ammo is already being tracked. */
  const AlreadyTracking := "Ammo is already being tracked. Do you want to " + ResetLink + "?"

  /** `!_.isEmpty(this.ammoLog)`: the log exists and tracks at least one character. */
  predicate Populated(log: Option<Log>)
  {
    log.Some? && !IsEmpty(log.value)
  }

  /** The log after `process` and the message it sends, if any. */
  datatype Outcome = Outcome(log: Option<Log>, message: Option<Message>)

  /**
    `process(options)`: `--start` on a populated log clears it when `--reset`
    is given and otherwise only warns, skipping any report; `--start` on an
    undefined or empty log leaves it exactly as it was; `--report` then sends
    the report of the log as it stands.
  */
  function ProcessOutcome(log: Option<Log>, opts: Options): (r: Outcome)
    requires MaybeLogOk(log)
    ensures MaybeLogOk(r.log)
    ensures opts.start && Populated(log) && !opts.reset ==>
      r.log == log && r.message == Some(Message(Title, AlreadyTracking))
    ensures opts.start && Populated(log) && opts.reset ==> r.log == Some(EmptyDict())
    ensures !(opts.start && Populated(log)) ==> r.log == log
    ensures !(opts.start && Populated(log) && !opts.reset) ==>
      r.message == if opts.report then Some(Message(Title, Render(r.log))) else None
  {
    if opts.start && Populated(log) && !opts.reset then
      Outcome(log, Some(Message(Title, AlreadyTracking)))
    else
      var after := if opts.start && Populated(log) then Some(EmptyDict()) else log;
      Outcome(after, if opts.report then Some(Message(Title, Render(after))) else None)
  }

  /** A reset through `--start --reset` leads to a report of nothing tracked. */
  lemma ResetThenReport(log: Option<Log>)
    requires MaybeLogOk(log) && Populated(log)
    ensures ProcessOutcome(log, Options(true, true, true)).message ==
      Some(Message(Title, "<ul></ul><br/>" + ResetLink))
  {
    RenderNothingTracked(Some(EmptyDict()));
  }

  /**
    The link the report ends with issues `--start --reset`, and processing
    those options on a populated log empties it and sends nothing.
  */
  lemma ResetLinkResets(log: Option<Log>)
    requires MaybeLogOk(log) && Populated(log)
    ensures Contains(ResetLink, "--start --reset")
    ensures ProcessOutcome(log, Options(true, false, true)) == Outcome(Some(EmptyDict()), None)
  {
    assert ResetLink[22..][..15] == "--start --reset";
  }

  /** Joining one more piece after `prefix` appends it. */
  lemma ConcatStep(prefix: string, parts: seq<string>, k: nat)
    requires k < |parts|
    ensures prefix + Concat(parts[..k + 1]) == prefix + Concat(parts[..k]) + parts[k]
  {
    assert parts[..k + 1][..k] == parts[..k];
  }

  /**
    The inner `_.each` of `reportAmmoUsed`: one "<li>name: count</li>" per
    counter, appended in enumeration order.
  */
  method AppendCounters(res: string, counts: Dict<nat>) returns (out: string)
    requires DictOk(counts)
    ensures out == res + Concat(CountParts(counts, EnumOrder(counts.keys)))
  {
    var names := EnumOrder(counts.keys);
    var items := CountParts(counts, names);
    out := res;
    var k := 0;
    while k < |names|
      invariant 0 <= k <= |names|
      invariant out == res + Concat(items[..k])
    {
      out := out + CountItem(names[k], counts.values[names[k]]);
      ConcatStep(res, items, k);
      k := k + 1;
    }
    assert items[..k] == items;
  }

  /** The body of the outer `_.each` of `reportAmmoUsed`: one character's item appended. */
  method AppendCharacter(res: string, entry: Entry) returns (out: string)
    requires DictOk(entry.ammoUsed)
    ensures out == res + CharacterItem(entry)
  {
    out := res + CharacterHeader(entry);
    out := AppendCounters(out, entry.ammoUsed);
    out := out + "</ul></li>";
    AppendThree(res, CharacterHeader(entry), Concat(CountParts(entry.ammoUsed, EnumOrder(entry.ammoUsed.keys))), "</ul></li>");
  }

  /** Appending three pieces in turn appends their concatenation. */
  lemma AppendThree(prefix: string, x: string, y: string, z: string)
    ensures prefix + x + y + z == prefix + (x + y + z)
  {
  }

  class AmmoManager {
    /** `this.ammoLog`: None until tracking starts. */
    var ammoLog: Option<Log>

    ghost predicate Valid()
      reads this
    {
      MaybeLogOk(ammoLog)
    }

    constructor()
      ensures Valid() && ammoLog.None?
    {
      ammoLog := None;
    }

    /** `startTracking()`: an empty log. */
    method StartTracking()
      modifies this
      ensures Valid() && ammoLog == Some(EmptyDict())
    {
      ammoLog := Some(EmptyDict());
    }

    /**
      `consumeAmmo(options, msg)` on the character's attributes `attrs` (what
      `findObjs` returns, in order): it does what Consume describes.
    */
    method ConsumeAmmo(req: Request, attrs: array<Attribute>)
      requires Valid()
      requires ResolveQty(attrs[..], req.ammoName).Some? ==> RequestOk(req)
      modifies this, attrs
      ensures Valid()
      ensures State(attrs[..], ammoLog) == Consume(State(old(attrs[..]), old(ammoLog)), req)
    {
      ghost var st := State(attrs[..], ammoLog);
      var found := ResolveQty(attrs[..], req.ammoName);
      if found.None? {
        return;
      }
      var j := found.value;
      var used := Used(req);
      var val := ParseIntOrZero(attrs[j].current);
      attrs[j] := Attribute(attrs[j].name, Num(Remaining(val, used)));
      assert attrs[..] == st.attrs[j := Attribute(st.attrs[j].name, Num(Remaining(val, used)))];

      if ammoLog.None? {
        StartTracking();
      }
      if req.characterId !in ammoLog.value.values {
        ammoLog := Some(Put(ammoLog.value, req.characterId, Entry(DisplayName(req.characterName), EmptyDict())));
      }
      assert ammoLog.value == WithEntry(LogOrEmpty(st.log), req.characterId, req.characterName);
      ammoLog := Some(AddUse(ammoLog.value, req.characterId, req.ammoName, used));
      assert ammoLog.value == Record(st.log, req.characterId, req.characterName, req.ammoName, used);
    }

    /** `reportAmmoUsed()`: the report of the log, which it leaves unchanged. */
    method ReportAmmoUsed() returns (msg: Message)
      requires Valid()
      ensures msg == Message(Title, Render(ammoLog))
    {
      var res := "<ul>";
      if ammoLog.Some? {
        var log := ammoLog.value;
        var ids := Characters(ammoLog);
        var parts := CharacterParts(log, ids);
        var i := 0;
        while i < |ids|
          invariant 0 <= i <= |ids|
          invariant res == "<ul>" + Concat(parts[..i])
        {
          res := AppendCharacter(res, log.values[ids[i]]);
          ConcatStep("<ul>", parts, i);
          i := i + 1;
        }
        assert parts[..i] == parts;
      }
      res := res + "</ul><br/>" + ResetLink;
      msg := Message(Title, res);
    }

    /** `process(options)`: it does what ProcessOutcome describes, and returns the message it sends. */
    method Process(opts: Options) returns (out: Option<Message>)
      requires Valid()
      modifies this
      ensures Valid()
      ensures Outcome(ammoLog, out) == ProcessOutcome(old(ammoLog), opts)
    {
      out := None;
      if opts.start {
        if ammoLog.Some? && !IsEmpty(ammoLog.value) {
          if opts.reset {
            StartTracking();
          } else {
            out := Some(Message(Title, AlreadyTracking));
            return;
          }
        }
      }
      if opts.report {
        var msg := ReportAmmoUsed();
        out := Some(msg);
      }
    }
  }
}
