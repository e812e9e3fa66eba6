/**
  Resolving an ammo name to its quantity attribute (lib/ammo-manager.js lines
  35-43). The character's attributes arrive as one flat list; the ones whose
  name starts with "repeating_ammo" are grouped by row key, the first group
  holding a name field whose value is the ammo name is chosen, and its first
  quantity field is the result.
*/
module AmmoRows {
  import opened Wrappers
  import opened JsText
  import opened JsParse
  import opened JsObject
  import opened Grouping

  /** One attribute record of the character: its name and its current value. */
  datatype Attribute = Attribute(name: string, current: JsValue)

  const AmmoPrefix := "repeating_ammo"
  const RowPrefix := "repeating_ammo_"

  /** `attribute.get('name').indexOf('repeating_ammo') === 0`. */
  predicate IsAmmoAttribute(a: Attribute)
  {
    StartsWith(a.name, AmmoPrefix)
  }

  /** `attribute.get('name').match(/.*name$/)`. */
  predicate IsNameField(a: Attribute)
  {
    EndsWith(a.name, "name")
  }

  /** `attribute.get('name').match(/.*qty$/)`. */
  predicate IsQtyField(a: Attribute)
  {
    EndsWith(a.name, "qty")
  }

  /** A name field whose current value is exactly (`===`) the ammo name. */
  predicate NamesAmmo(a: Attribute, ammoName: string)
  {
    IsNameField(a) && a.current == Str(ammoName)
  }

  predicate NotUnderscore(c: char)
  {
    c != '_'
  }

  predicate NotLineTerminator(c: char)
  {
    !IsLineTerminator(c)
  }

  /** The pattern `(repeating_ammo_[^_]+).*` can start matching at the front of `t`. */
  predicate RowPatternPrefix(t: string)
  {
    |t| > |RowPrefix| && t[..|RowPrefix|] == RowPrefix && t[|RowPrefix|] != '_'
  }

  /** Where the leftmost match of the pattern `(repeating_ammo_[^_]+).*` starts. */
  function FirstRowPattern(name: string): (r: Option<nat>)
    ensures r.Some? ==> r.value < |name| && RowPatternPrefix(name[r.value..])
    ensures r.Some? ==> forall k: nat :: k < r.value ==> !RowPatternPrefix(name[k..])
    ensures r.None? ==> forall k: nat :: k < |name| ==> !RowPatternPrefix(name[k..])
  {
    var at := (p: nat) => p <= |name| && RowPatternPrefix(name[p..]);
    var r := FirstFrom(at, 0, |name|);
    assert forall k: nat :: k <= |name| ==> at(k) == RowPatternPrefix(name[k..]);
    r
  }

  /**
    `name.replace(pattern, "$1")` with the pattern `(repeating_ammo_[^_]+).*`: the match keeps its
    captured "repeating_ammo_<rowid>" and drops what `.*` covers, which stops
    at the first line terminator; text around the match is kept.
  */
  function RowKey(name: string): (r: string)
    ensures FirstRowPattern(name).None? ==> r == name
    ensures FirstRowPattern(name).Some? ==>
      StartsWith(r, name[..FirstRowPattern(name).value] + RowPrefix) && |r| <= |name|
  {
    match FirstRowPattern(name)
    case None => name
    case Some(p) =>
      var q := ScanWhile(name, p + |RowPrefix|, NotUnderscore);
      var e := ScanWhile(name, q, NotLineTerminator);
      name[..q] + name[e..]
  }

  /**
    The sheet's fields "repeating_ammo_<rowid>_name" and "..._qty" are ammo
    attributes, the first a name field and the second a quantity field, and
    no attribute is both.
  */
  lemma FieldKinds(rowId: string, v: JsValue, a: Attribute)
    ensures var n := Attribute(RowPrefix + rowId + "_name", v);
      IsAmmoAttribute(n) && IsNameField(n) && !IsQtyField(n)
    ensures var q := Attribute(RowPrefix + rowId + "_qty", v);
      IsAmmoAttribute(q) && IsQtyField(q) && !IsNameField(q)
    ensures !(IsNameField(a) && IsQtyField(a))
  {
    var n := RowPrefix + rowId + "_name";
    assert n[..|AmmoPrefix|] == AmmoPrefix && n[|n| - 4..] == "name" && n[|n| - 1] == 'e';
    var q := RowPrefix + rowId + "_qty";
    assert q[..|AmmoPrefix|] == AmmoPrefix && q[|q| - 3..] == "qty" && q[|q| - 1] == 'y';
    assert IsNameField(a) ==> a.name[|a.name| - 1] == "name"[3] == 'e';
    assert IsQtyField(a) ==> a.name[|a.name| - 1] == "qty"[2] == 'y';
  }

  /** The row key of a field "repeating_ammo_<rowid>_<field>" is "repeating_ammo_<rowid>". */
  lemma RowKeyOfField(rowId: string, field: string)
    requires |rowId| > 0 && '_' !in rowId
    requires forall i :: 0 <= i < |field| ==> !IsLineTerminator(field[i])
    ensures RowKey(RowPrefix + rowId + "_" + field) == RowPrefix + rowId
  {
    var name := RowPrefix + rowId + "_" + field;
    assert name[0..] == name;
    assert name[..|RowPrefix|] == RowPrefix;
    assert name[|RowPrefix|] == rowId[0];
    assert FirstRowPattern(name) == Some(0);
    var q := |RowPrefix| + |rowId|;
    forall i | |RowPrefix| <= i < q
      ensures NotUnderscore(name[i])
    {
      assert name[i] == rowId[i - |RowPrefix|];
    }
    assert name[q] == '_';
    ScanWhileIs(name, |RowPrefix|, NotUnderscore, q);
    forall i | q <= i < |name|
      ensures NotLineTerminator(name[i])
    {
      if i > q {
        assert name[i] == field[i - q - 1];
      }
    }
    ScanWhileIs(name, q, NotLineTerminator, |name|);
    assert name[..q] == RowPrefix + rowId;
  }

  /** Grouping never changes the "repeating_ammo" prefix, so a row key never looks like an array index. */
  lemma RowKeyKeepsPrefix(name: string)
    requires StartsWith(name, AmmoPrefix)
    ensures StartsWith(RowKey(name), AmmoPrefix)
    ensures !IsArrayIndex(RowKey(name))
  {
    var key := RowKey(name);
    if FirstRowPattern(name).Some? {
      var p := FirstRowPattern(name).value;
      var q := ScanWhile(name, p + |RowPrefix|, NotUnderscore);
      assert key[..|AmmoPrefix|] == name[..q][..|AmmoPrefix|] == name[..|AmmoPrefix|];
    }
    assert key[0] == AmmoPrefix[0] == 'r';
  }

  /** The group an attribute goes to: its row key when it is an ammo attribute. */
  function RowTag(a: Attribute): Option<string>
  {
    if IsAmmoAttribute(a) then Some(RowKey(a.name)) else None
  }

  /** The row tag of every attribute, in list order. */
  function RowTags(attrs: seq<Attribute>): (ts: seq<Option<string>>)
    ensures |ts| == |attrs| && forall i :: 0 <= i < |attrs| ==> ts[i] == RowTag(attrs[i])
  {
    seq(|attrs|, i requires 0 <= i < |attrs| => RowTag(attrs[i]))
  }

  /** Every row key starts with "repeating_ammo", so `_.find` meets the groups in creation order. */
  lemma RowKeysInCreationOrder(attrs: seq<Attribute>)
    ensures EnumOrder(GroupKeys(RowTags(attrs), |attrs|)) == GroupKeys(RowTags(attrs), |attrs|)
  {
    var tags := RowTags(attrs);
    var ks := GroupKeys(tags, |attrs|);
    forall p | 0 <= p < |ks|
      ensures !IsArrayIndex(ks[p])
    {
      assert ks[p] in ks;
      var i :| 0 <= i < |attrs| && InGroup(tags, i, ks[p]);
      RowKeyKeepsPrefix(attrs[i].name);
    }
  }

  /** Which attributes are name fields holding exactly the ammo name. */
  function NameMarks(attrs: seq<Attribute>, ammoName: string): (marks: seq<bool>)
    ensures |marks| == |attrs| && forall i :: 0 <= i < |attrs| ==> marks[i] == NamesAmmo(attrs[i], ammoName)
  {
    seq(|attrs|, i requires 0 <= i < |attrs| => NamesAmmo(attrs[i], ammoName))
  }

  /** Which attributes are quantity fields. */
  function QtyFlags(attrs: seq<Attribute>): (flags: seq<bool>)
    ensures |flags| == |attrs| && forall i :: 0 <= i < |attrs| ==> flags[i] == IsQtyField(attrs[i])
  {
    seq(|attrs|, i requires 0 <= i < |attrs| => IsQtyField(attrs[i]))
  }

  /**
    The index in `attrs` of `ammoAttr`, the attribute consumption writes, or
    None where the source finds nothing: no row has a name field holding the
    ammo name, or the first row that does has no quantity field.
  */
  function ResolveQty(attrs: seq<Attribute>, ammoName: string): (r: Option<nat>)
    ensures r.Some? ==> r.value < |attrs| && IsQtyField(attrs[r.value])
  {
    var tags := RowTags(attrs);
    var ks := EnumOrder(GroupKeys(tags, |attrs|));
    match FindMarkedGroup(tags, NameMarks(attrs, ammoName), ks)
    case None => None
    case Some(p) =>
      var members := GroupMembers(tags, |attrs|, ks[p]);
      match FirstFlagged(QtyFlags(attrs), members)
      case None => None
      case Some(t) => Some(members[t])
  }

  /** Some ammo attribute of row `key` is a name field holding exactly the ammo name. */
  ghost predicate RowNamesAmmo(attrs: seq<Attribute>, key: string, ammoName: string)
  {
    GroupMarked(RowTags(attrs), NameMarks(attrs, ammoName), key)
  }

  /** Row `key` names the ammo, and every attribute before its first one is in a row that does not. */
  ghost predicate IsSelectedRow(attrs: seq<Attribute>, key: string, ammoName: string)
  {
    IsFirstMarkedGroup(RowTags(attrs), NameMarks(attrs, ammoName), key)
  }

  /** Attribute `j` is an ammo quantity field, and no earlier attribute of its row is one. */
  ghost predicate IsFirstQtyOfRow(attrs: seq<Attribute>, j: int)
  {
    IsFirstFlaggedInGroup(RowTags(attrs), QtyFlags(attrs), j)
  }

  /**
    What resolution finds, stated on the flat attribute list: the first
    quantity field of the first row (in list order) that has a name field
    holding exactly the ammo name. It finds nothing only when no row names the
    ammo, or when that row has no quantity field.
  */
  lemma ResolveQtyFindsSelectedRow(attrs: seq<Attribute>, ammoName: string)
    ensures var r := ResolveQty(attrs, ammoName);
      r.Some? ==> && RowTags(attrs)[r.value].Some?
                  && IsSelectedRow(attrs, RowTags(attrs)[r.value].value, ammoName)
                  && IsFirstQtyOfRow(attrs, r.value)
    ensures var r := ResolveQty(attrs, ammoName);
      r.None? ==> forall key, j :: IsSelectedRow(attrs, key, ammoName) && InGroup(RowTags(attrs), j, key) ==> !IsQtyField(attrs[j])
  {
    RowKeysInCreationOrder(attrs);
    SelectionOnFlatList(RowTags(attrs), NameMarks(attrs, ammoName), QtyFlags(attrs));
  }

  /** At most one row is the selected one. */
  lemma SelectedRowUnique(attrs: seq<Attribute>, k1: string, k2: string, ammoName: string)
    requires IsSelectedRow(attrs, k1, ammoName) && IsSelectedRow(attrs, k2, ammoName)
    ensures k1 == k2
  {
    FirstMarkedGroupUnique(RowTags(attrs), NameMarks(attrs, ammoName), k1, k2);
  }

  /** Without a name field holding the ammo name in any ammo row, nothing is resolved. */
  lemma UnnamedAmmoResolvesNothing(attrs: seq<Attribute>, ammoName: string)
    requires forall i :: 0 <= i < |attrs| && IsAmmoAttribute(attrs[i]) ==> !NamesAmmo(attrs[i], ammoName)
    ensures ResolveQty(attrs, ammoName).None?
  {
    ResolveQtyFindsSelectedRow(attrs, ammoName);
    forall key
      ensures !RowNamesAmmo(attrs, key, ammoName)
    {
    }
  }

  /**
    Resolution looks only at names and at the values of name fields, so
    writing the `current` of a quantity field does not change what a later
    consumption resolves.
  */
  lemma ResolveIgnoresQtyValues(attrs: seq<Attribute>, j: nat, v: JsValue, ammoName: string)
    requires j < |attrs| && IsQtyField(attrs[j])
    ensures ResolveQty(attrs[j := Attribute(attrs[j].name, v)], ammoName) == ResolveQty(attrs, ammoName)
  {
    var b := attrs[j := Attribute(attrs[j].name, v)];
    var name := attrs[j].name;
    assert !IsNameField(attrs[j]) && !IsNameField(b[j]) by {
      assert name[|name| - 1] == "qty"[2];
    }
    assert RowTags(b) == RowTags(attrs);
    assert NameMarks(b, ammoName) == NameMarks(attrs, ammoName);
    assert QtyFlags(b) == QtyFlags(attrs);
  }
}
