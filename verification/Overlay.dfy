/** The merge of a translation overlay onto an English source template, and the
    re-shapings of an overlay: stamped with ids, aligned to the source, canonical. */
module Overlay {
  import opened Json
  import opened Addressing

  /** What a locale renders: the source, with its text replaced where the overlay has text. */
  function Merge(source: Json, overlay: Json): Json
    decreases source
  {
    match source
    case Arr(s) =>
      if !overlay.Arr? then source
      else Arr(seq(|s|, i requires 0 <= i < |s| => Merge(s[i], Slot(s, overlay.items, i))))
    case Obj(s) =>
      if !overlay.Obj? then source
      else Obj(map k | k in s :: if k == ID && s[k].Str? then s[k] else Merge(s[k], Get(overlay.fields, k)))
    case Str(_) => if source.Text() && overlay.Text() then overlay else source
    case _ => source
  }

  /** The merger of a release that knew no ids: every array by position. */
  function MergeByPosition(source: Json, overlay: Json): Json
    decreases source
  {
    match source
    case Arr(s) =>
      if !overlay.Arr? then source
      else Arr(seq(|s|, i requires 0 <= i < |s| => MergeByPosition(s[i], At(overlay.items, i))))
    case Obj(s) =>
      if !overlay.Obj? then source
      else Obj(map k | k in s ::
        if k == ID && s[k].Str? then s[k] else MergeByPosition(s[k], Get(overlay.fields, k)))
    case Str(_) => if source.Text() && overlay.Text() then overlay else source
    case _ => source
  }

  function WithId(entry: Json, id: string): Json {
    if entry.Obj? then Obj(entry.fields[ID := Str(id)]) else entry
  }

  /** `overlay` with the source's ids on every entry of an id-addressable array. */
  function Stamp(source: Json, overlay: Json): Json
    decreases overlay, 0
  {
    if overlay.Nullish() then overlay
    else match source
      case Arr(s) => if !overlay.Arr? then overlay
        else Arr(seq(|overlay.items|, i requires 0 <= i < |overlay.items| => StampEntry(s, overlay.items, i)))
      case Obj(s) => if !overlay.Obj? then overlay
        else Obj(map k | k in overlay.fields ::
          if k in s then Stamp(s[k], overlay.fields[k]) else overlay.fields[k])
      case _ => overlay
  }

  function StampEntry(s: seq<Json>, o: seq<Json>, i: nat): Json
    requires i < |o|
    decreases o[i], 1
  {
    if !IdAddressable(s) then Stamp(At(s, i), o[i])
    else if HasIds(o) then
      if HasId(o[i]) && Knows(s, IdOf(o[i])) then WithId(Stamp(FindById(s, IdOf(o[i])), o[i]), IdOf(o[i]))
      else o[i]
    else
      var stamped := Stamp(At(s, i), o[i]);
      if i < |s| && stamped.Obj? then WithId(stamped, IdOf(s[i])) else stamped
  }

  /** `overlay` in source order: one slot per source entry of an id-addressed array. */
  function Align(source: Json, overlay: Json): Json
    decreases overlay
  {
    if overlay.Nullish() then overlay
    else match source
      case Arr(s) => if !overlay.Arr? then overlay
        else
          var o := overlay.items;
          if IdAddressable(s) && HasIds(o) then
            Arr(seq(|s|, i requires 0 <= i < |s| =>
              var e := FindById(o, IdOf(s[i]));
              if e.Undefined? then Null else Align(s[i], e)))
          else Arr(seq(|o|, i requires 0 <= i < |o| => Align(At(s, i), o[i])))
      case Obj(s) => if !overlay.Obj? then overlay
        else Obj(map k | k in overlay.fields ::
          if k in s then Align(s[k], overlay.fields[k]) else overlay.fields[k])
      case _ => overlay
  }

  function Canonicalize(source: Json, overlay: Json): Json {
    Align(source, Stamp(source, overlay))
  }
}
