/**
 * Text tracks (captions, subtitles, ...) and the radio menus the control bar
 * offers for tracks and for sources.
 */
module Tracks {
  import TimeFormat
  import opened Sources

  /** A text track's `mode`, as the source compares it. */
  datatype Mode = Disabled | Hidden | Showing

  /** A text track: kind ("" when absent), label ("" when absent), language and mode. */
  datatype TextTrack = TextTrack(kind: string, labelText: string, language: string, mode: Mode)

  /** At most one track of `kind` is showing. */
  ghost predicate ExclusiveIn(ts: seq<TextTrack>, kind: string) {
    forall i, j ::
      (0 <= i < |ts| && 0 <= j < |ts| && ts[i].kind == kind && ts[j].kind == kind
       && ts[i].mode == Showing && ts[j].mode == Showing) ==> i == j
  }

  /** Tracks after the radio item with value `v` is selected: every track of its kind disabled, then it toggled. */
  function Select(ts: seq<TextTrack>, v: int): (r: seq<TextTrack>)
    ensures |r| == |ts|
    ensures forall i :: 0 <= i < |ts| ==> r[i] == ts[i].(mode := r[i].mode)
    ensures !(0 <= v < |ts|) ==> r == ts
    ensures 0 <= v < |ts| ==> r[v].mode == Showing
    ensures 0 <= v < |ts| ==> forall i :: 0 <= i < |ts| && i != v && ts[i].kind == ts[v].kind ==> r[i].mode == Disabled
    ensures 0 <= v < |ts| ==> forall i :: 0 <= i < |ts| && ts[i].kind != ts[v].kind ==> r[i] == ts[i]
  {
    if 0 <= v < |ts| then
      var kind := ts[v].kind;
      var off := seq(|ts|, i requires 0 <= i < |ts| => if ts[i].kind == kind then ts[i].(mode := Disabled) else ts[i]);
      off[v := off[v].(mode := if off[v].mode == Disabled then Showing else Disabled)]
    else ts
  }

  /** Selecting a track leaves exactly that track showing within its kind. */
  lemma SelectExclusive(ts: seq<TextTrack>, v: int)
    requires 0 <= v < |ts|
    ensures ExclusiveIn(Select(ts, v), ts[v].kind)
    ensures Select(ts, v)[v].kind == ts[v].kind && Select(ts, v)[v].mode == Showing
  {
  }

  /** Selecting keeps every kind that had at most one showing track that way. */
  lemma SelectPreservesExclusive(ts: seq<TextTrack>, v: int, kind: string)
    requires ExclusiveIn(ts, kind)
    ensures ExclusiveIn(Select(ts, v), kind)
  {
    var r := Select(ts, v);
    if 0 <= v < |ts| && kind != ts[v].kind {
      forall i, j | 0 <= i < |r| && 0 <= j < |r| && r[i].kind == kind && r[j].kind == kind
        && r[i].mode == Showing && r[j].mode == Showing
        ensures i == j
      {
        assert r[i] == ts[i] && r[j] == ts[j];
      }
    }
  }

  /** One radio item of a menu: its input's name and value, its label's text, and whether it starts checked. */
  datatype MenuItem = MenuItem(name: string, value: int, text: string, checked: bool)

  /** The radio name of a track item: the kind, or "unknow" when the track has none. */
  function KindName(kind: string): (name: string)
    ensures name != ""
  {
    if kind == "" then "unknow" else kind
  }

  /**
   * `_createTrackItem(textTrack, i)`: a radio named after the kind, with
   * value `i`, checked exactly when the track is showing.
   */
  function TrackItem(t: TextTrack, i: int): (item: MenuItem)
  {
    MenuItem(KindName(t.kind), i, if t.labelText == "" then t.language else t.labelText, t.mode == Showing)
  }

  /** The synthetic "None" track the menu offers for a kind. */
  function NoneTrack(kind: string): (t: TextTrack) {
    TextTrack(kind, "None", "", Showing)
  }

  /**
   * `arr[key] != undefined` for a JavaScript array of strings: the key is
   * "length" or the decimal form of an index below the length.
   */
  predicate OwnProperty(arr: seq<string>, key: string) {
    key == "length" || exists i | 0 <= i < |arr| :: key == TimeFormat.Decimal(i)
  }

  /** A kind that names no own property of an array. Every HTML track kind is one. */
  predicate PlainKind(kind: string) {
    kind != "length" && (kind == "" || !TimeFormat.IsDigit(kind[0]))
  }

  /** The track menu's items together with the `noneOptionsAdded` array. */
  datatype MenuState = MenuState(items: seq<MenuItem>, noneAdded: seq<string>)

  /**
   * The track loop of `createControls`, run over the tracks `ts`: one item
   * per track, each possibly preceded by a "None" item, and at most one
   * "None" item recorded per track.
   */
  function TrackMenu(ts: seq<TextTrack>): (st: MenuState)
    ensures |ts| <= |st.items| <= 2 * |ts| && |st.noneAdded| <= |ts|
  {
    if ts == [] then MenuState([], [])
    else
      var i := |ts| - 1;
      var st := TrackMenu(ts[..i]);
      var withNone :=
        if !OwnProperty(st.noneAdded, ts[i].kind)
        then MenuState(st.items + [TrackItem(NoneTrack(ts[i].kind), -1)], st.noneAdded + [ts[i].kind])
        else st;
      MenuState(withNone.items + [TrackItem(ts[i], i)], withNone.noneAdded)
  }

  /** The lookup `noneOptionsAdded[kind]` never finds a plain kind. */
  lemma PlainKindNotOwn(arr: seq<string>, kind: string)
    requires PlainKind(kind)
    ensures !OwnProperty(arr, kind)
  {
    forall i | 0 <= i < |arr|
      ensures kind != TimeFormat.Decimal(i)
    {
      assert TimeFormat.IsDigit(TimeFormat.Decimal(i)[0]);
    }
  }

  /** One loop step where the lookup misses: a "None" item, then the track's own item. */
  lemma TrackMenuStep(ts: seq<TextTrack>)
    requires ts != []
    ensures var n := |ts| - 1;
      !OwnProperty(TrackMenu(ts[..n]).noneAdded, ts[n].kind) ==>
      TrackMenu(ts).items == TrackMenu(ts[..n]).items + [TrackItem(NoneTrack(ts[n].kind), -1), TrackItem(ts[n], n)]
  {
    var n := |ts| - 1;
    var st := TrackMenu(ts[..n]);
    if !OwnProperty(st.noneAdded, ts[n].kind) {
      var withNone := st.items + [TrackItem(NoneTrack(ts[n].kind), -1)];
      assert TrackMenu(ts).items == withNone + [TrackItem(ts[n], n)];
    }
  }

  /** The menu as it reads when every lookup misses: each track preceded by its "None" item. */
  function PairedMenu(ts: seq<TextTrack>): (items: seq<MenuItem>)
    ensures |items| == 2 * |ts|
  {
    if ts == [] then []
    else
      var n := |ts| - 1;
      PairedMenu(ts[..n]) + [TrackItem(NoneTrack(ts[n].kind), -1), TrackItem(ts[n], n)]
  }

  /**
   * Item 2i of the paired menu is a checked "None" item of value -1 for
   * track i's kind; item 2i+1 is track i's own item: value i, name the kind
   * or "unknow", text the label or the language, checked exactly when showing.
   */
  lemma {:induction false} PairedMenuItems(ts: seq<TextTrack>)
    ensures forall i :: 0 <= i < |ts| ==>
      && PairedMenu(ts)[2 * i] == MenuItem(KindName(ts[i].kind), -1, "None", true)
      && PairedMenu(ts)[2 * i + 1] == MenuItem(KindName(ts[i].kind), i, if ts[i].labelText == "" then ts[i].language else ts[i].labelText, ts[i].mode == Showing)
  {
    if ts != [] {
      var n := |ts| - 1;
      var init := ts[..n];
      PairedMenuItems(init);
      var items, prev := PairedMenu(ts), PairedMenu(init);
      assert items == prev + [TrackItem(NoneTrack(ts[n].kind), -1), TrackItem(ts[n], n)];
      forall i | 0 <= i < n
        ensures items[2 * i] == prev[2 * i] && items[2 * i + 1] == prev[2 * i + 1] && init[i] == ts[i]
      {
      }
    }
  }

  /** With plain kinds the dedupe never fires: the loop builds the paired menu. */
  lemma {:induction false} TrackMenuPairs(ts: seq<TextTrack>)
    requires forall i :: 0 <= i < |ts| ==> PlainKind(ts[i].kind)
    ensures TrackMenu(ts).items == PairedMenu(ts)
  {
    if ts != [] {
      var n := |ts| - 1;
      var init := ts[..n];
      assert forall i :: 0 <= i < n ==> init[i] == ts[i];
      TrackMenuPairs(init);
      PlainKindNotOwn(TrackMenu(init).noneAdded, ts[n].kind);
      TrackMenuStep(ts);
    }
  }

  /**
   * Every value the track menu offers is -1, which selects nothing, or the
   * index of a track, which ends up showing.
   */
  lemma {:induction false} TrackMenuValues(ts: seq<TextTrack>)
    ensures forall item :: item in TrackMenu(ts).items ==>
      || (item.value == -1 && Select(ts, item.value) == ts)
      || (0 <= item.value < |ts| && Select(ts, item.value)[item.value].mode == Showing)
  {
    if ts != [] {
      var n := |ts| - 1;
      TrackMenuValues(ts[..n]);
    }
  }

  /** `_createSourceItem(source, i)`: a radio of the "source" group with value `i`, the first one checked. */
  function SourceItem(s: Source, i: nat): (item: MenuItem)
    ensures item.name == "source" && item.value == i
    ensures item.checked <==> i == 0
  {
    MenuItem("source", i, if s.title == "" then s.mimeType else s.title, i == 0)
  }

  /** The source menu: one item per source, in order. */
  function SourceMenu(sources: seq<Source>): (items: seq<MenuItem>)
    ensures |items| == |sources|
    ensures forall i :: 0 <= i < |items| ==> items[i].value == i && items[i].name == "source"
    ensures forall i :: 0 <= i < |items| ==> (items[i].checked <==> i == 0)
    ensures forall i :: 0 <= i < |items| ==>
      items[i].text == if sources[i].title == "" then sources[i].mimeType else sources[i].title
  {
    seq(|sources|, i requires 0 <= i < |sources| => SourceItem(sources[i], i))
  }
}
