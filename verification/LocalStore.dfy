/** The GUI's notes, flags and hidden entries: memory, the state file that every save overwrites as a whole,
    and what a restart rebuilds from the server's history and that file. */
module LocalStore {
  import opened Text

  const NOTE_MAX := 255

  datatype Meta = Meta(id: int, note: string, toHandle: bool, hidden: bool)

  /** The listed entries, the selected one, the state file, and the next id the server will give a lookup. */
  datatype State = State(entries: seq<Meta>, selected: Option<nat>, file: seq<Meta>, next: int)

  /** A tap whose usage row the server could not record comes with id 0.
      ok: the write of the state file succeeds. The history of a restart is what the server returned, if it did;
      Elsewhere is a lookup made with the same key by another client. */
  datatype Op =
    | Tap
    | Unrecorded
    | Elsewhere
    | Select(i: nat)
    | Deselect
    | SaveNote(text: string, ok: bool)
    | Toggle(ok: bool)
    | Delete(ok: bool)
    | Restart(history: Option<seq<int>>)

  function Clip(text: string): string {
    if |text| > NOTE_MAX then text[..NOTE_MAX] else text
  }

  function Fresh(id: int): Meta {
    Meta(id, "", false, false)
  }

  /** The first record with this id decides. */
  function Restored(file: seq<Meta>, id: int): (m: Meta)
    ensures m.id == id
  {
    if file == [] then Fresh(id) else if file[0].id == id then file[0] else Restored(file[1..], id)
  }

  function Rebuilt(file: seq<Meta>, history: seq<int>): seq<Meta> {
    if history == [] then []
    else
      var n := |history| - 1;
      var m := Restored(file, history[n]);
      Rebuilt(file, history[..n]) + if m.hidden then [] else [m]
  }

  function Write(s: State, ok: bool): State {
    if ok then s.(file := s.entries) else s
  }

  /** The server returns usage rows it has, each once. */
  ghost predicate IsHistory(history: Option<seq<int>>, next: int) {
    history.Some? ==>
      && (forall i :: 0 <= i < |history.value| ==> 0 < history.value[i] < next)
      && (forall i, j :: 0 <= i < j < |history.value| ==> history.value[i] != history.value[j])
  }

  function Without(s: seq<Meta>, i: nat): seq<Meta>
    requires i < |s|
  {
    s[..i] + s[i + 1..]
  }

  predicate HasSelection(s: State) {
    s.selected.Some? && s.selected.value < |s.entries|
  }

  function Edit(s: State, m: Meta): State
    requires HasSelection(s)
  {
    s.(entries := s.entries[s.selected.value := m])
  }

  predicate IsWrite(op: Op) {
    op.SaveNote? || op.Toggle? || op.Delete?
  }

  /** What a handler makes of the selected entry before it saves. */
  function Changed(op: Op, m: Meta): (r: Meta)
    ensures r.id == m.id && (r.hidden ==> op.Delete? || m.hidden)
  {
    match op
    case SaveNote(text, _) => m.(note := Clip(text))
    case Toggle(_) => m.(toHandle := !m.toHandle)
    case Delete(_) => m.(hidden := true)
    case _ => m
  }

  function Handle(s: State, op: Op): State
    requires IsWrite(op) && HasSelection(s)
  {
    var i := s.selected.value;
    var w := Write(Edit(s, Changed(op, s.entries[i])), op.ok);
    if op.Delete? then w.(entries := Without(s.entries, i), selected := None) else w
  }

  ghost function Step(s: State, op: Op): State {
    match op
    case Tap => State(s.entries + [Fresh(s.next)], Some(|s.entries|), s.file, s.next + 1)
    case Unrecorded => s.(entries := s.entries + [Fresh(0)], selected := Some(|s.entries|))
    case Elsewhere => s.(next := s.next + 1)
    case Select(i) => if i < |s.entries| then s.(selected := Some(i)) else s
    case Deselect => s.(selected := None)
    case SaveNote(_, _) => if HasSelection(s) then Handle(s, op) else s
    case Toggle(_) => if HasSelection(s) then Handle(s, op) else s
    case Delete(_) => if HasSelection(s) then Handle(s, op) else s
    case Restart(history) =>
      if !IsHistory(history, s.next) then s
      else
        var entries := if history.Some? then Rebuilt(s.file, history.value) else [];
        State(entries, if entries == [] then None else Some(0), s.file, s.next)
  }

  ghost function Run(s: State, ops: seq<Op>): State {
    if ops == [] then s else Step(Run(s, ops[..|ops| - 1]), ops[|ops| - 1])
  }

  const EMPTY := State([], None, [], 1)

  // ---- The program ----

  class GuiEntry {
    const id: int
    var note: string
    var toHandle: bool
    var hidden: bool

    constructor (id: int)
      ensures this.id == id && View() == Fresh(id)
    {
      this.id := id;
      note, toHandle, hidden := "", false, false;
    }

    function View(): (m: Meta)
      reads this
    {
      Meta(id, note, toHandle, hidden)
    }

    method ApplyLocalMeta(metas: seq<Meta>)
      requires View() == Fresh(id)
      modifies this
      ensures View() == Restored(metas, id)
    {
      for i := 0 to |metas|
        invariant View() == Fresh(id) && Restored(metas, id) == Restored(metas[i..], id)
      {
        assert metas[i..][1..] == metas[i + 1..];
        if metas[i].id == id {
          note, toHandle, hidden := metas[i].note, metas[i].toHandle, metas[i].hidden;
          return;
        }
      }
    }
  }

  ghost function Views(es: seq<GuiEntry>): (r: seq<Meta>)
    reads es
    ensures |r| == |es| && forall i :: 0 <= i < |es| ==> r[i] == es[i].View()
  {
    seq(|es|, i requires 0 <= i < |es| reads es => es[i].View())
  }

  lemma SameWithout(s: State, m: Meta)
    requires HasSelection(s)
    ensures Without(Edit(s, m).entries, s.selected.value) == Without(s.entries, s.selected.value)
  {
  }

  class Gui {
    var entries: seq<GuiEntry>
    var selected: GuiEntry?
    var file: seq<Meta>
    ghost var next: int
    ghost var at: nat

    ghost predicate Valid()
      reads this, entries
    {
      && (forall i, j :: 0 <= i < j < |entries| ==> entries[i] != entries[j])
      && (selected != null ==> at < |entries| && entries[at] == selected)
    }

    ghost function Abs(): State
      reads this, entries
    {
      State(Views(entries), if selected == null then None else Some(at), file, next)
    }

    method SaveLocalStoreNow(ok: bool)
      modifies this`file
      ensures file == if ok then Views(entries) else old(file)
    {
      var metas: seq<Meta> := [];
      for i := 0 to |entries|
        invariant |metas| == i && forall k :: 0 <= k < i ==> metas[k] == entries[k].View()
        invariant file == old(file)
      {
        metas := metas + [entries[i].View()];
      }
      assert metas == Views(entries);
      if ok { file := metas; }
    }

    method OnSaveNote(text: string, ok: bool)
      requires Valid()
      modifies this, entries
      ensures Valid() && entries == old(entries) && Abs() == Step(old(Abs()), SaveNote(text, ok))
    {
      if selected == null { return; }
      selected.note := if |text| > NOTE_MAX then text[..NOTE_MAX] else text;
      ghost var was := old(Abs());
      assert Views(entries) == Edit(was, Changed(SaveNote(text, ok), was.entries[at])).entries;
      SaveLocalStoreNow(ok);
    }

    method OnToggle(ok: bool)
      requires Valid()
      modifies this, entries
      ensures Valid() && entries == old(entries) && Abs() == Step(old(Abs()), Toggle(ok))
    {
      if selected == null { return; }
      selected.toHandle := !selected.toHandle;
      ghost var was := old(Abs());
      assert Views(entries) == Edit(was, Changed(Toggle(ok), was.entries[at])).entries;
      SaveLocalStoreNow(ok);
    }

    /** Takes the selected entry out of the list. */
    method RemoveSelected()
      requires Valid() && selected != null
      modifies this`entries
      ensures Views(entries) == Without(old(Views(entries)), at)
      ensures forall e :: e in entries ==> e in old(entries)
      ensures forall i, j :: 0 <= i < j < |entries| ==> entries[i] != entries[j]
    {
      var i := 0;
      while entries[i] != selected
        invariant i <= at
        decreases at - i
      {
        i := i + 1;
      }
      entries := entries[..i] + entries[i + 1..];
      assert Views(entries) == Without(old(Views(entries)), at);
    }

    method HideSelected(ok: bool)
      requires Valid() && selected != null
      modifies this`file, selected
      ensures Valid() && Abs() == Write(Edit(old(Abs()), Changed(Delete(ok), old(Abs()).entries[at])), ok)
    {
      selected.hidden := true;
      ghost var was := old(Abs());
      assert Views(entries) == Edit(was, Changed(Delete(ok), was.entries[at])).entries;
      SaveLocalStoreNow(ok);
    }

    method OnDelete(ok: bool)
      requires Valid()
      modifies this, entries
      ensures Valid() && Abs() == Step(old(Abs()), Delete(ok))
      ensures forall e :: e in entries ==> e in old(entries)
    {
      if selected == null { return; }
      ghost var was := old(Abs());
      HideSelected(ok);
      RemoveSelected();
      selected := null;
      assert Views(entries) == Without(Edit(was, Changed(Delete(ok), was.entries[at])).entries, at);
      SameWithout(was, Changed(Delete(ok), was.entries[at]));
    }

    /** id is what the server gave the lookup: the next row's, or 0 when it could not record the row. */
    method IdleNewTap(id: int)
      requires Valid() && (id == next || id == 0)
      modifies this
      ensures Valid() && (id == old(next) ==> Abs() == Step(old(Abs()), Tap))
      ensures id != old(next) ==> Abs() == Step(old(Abs()), Unrecorded)
      ensures |entries| == |old(entries)| + 1 && entries[..|old(entries)|] == old(entries)
      ensures fresh(entries[|old(entries)|])
    {
      var e := new GuiEntry(id);
      entries := entries + [e];
      selected, at, next := e, |entries| - 1, if id == next then next + 1 else next;
      assert Views(entries) == old(Abs()).entries + [Fresh(id)];
    }

    /** One fetched row, with the state file applied; a hidden one is dropped. */
    method AddFetched(id: int)
      requires Valid() && selected == null
      modifies this`entries
      ensures Valid() && fresh(set e | e in entries && e !in old(entries))
      ensures var m := Restored(file, id); Views(entries) == old(Views(entries)) + if m.hidden then [] else [m]
    {
      var e := new GuiEntry(id);
      e.ApplyLocalMeta(file);
      if e.hidden { return; }
      entries := entries + [e];
      assert Views(entries) == old(Views(entries)) + [e.View()];
    }

    /** A new process: the fetched history, or nothing when the fetch failed, with the state file applied. */
    method Start(history: Option<seq<int>>)
      requires IsHistory(history, next)
      modifies this
      ensures Valid() && Abs() == Step(old(Abs()), Restart(history)) && fresh(entries)
    {
      entries, selected := [], null;
      var ids := if history.Some? then history.value else [];
      for i := 0 to |ids|
        invariant Valid() && fresh(entries)
        invariant file == old(file) && next == old(next) && selected == null
        invariant Views(entries) == Rebuilt(file, ids[..i])
      {
        assert ids[..i + 1][..i] == ids[..i];
        AddFetched(ids[i]);
      }
      assert ids[..|ids|] == ids;
      if |entries| > 0 {
        selected, at := entries[0], 0;
      }
    }
  }

  // ---- What every run keeps ----

  ghost predicate UniqueIds(s: seq<Meta>) {
    forall i, j :: 0 <= i < j < |s| ==> s[i].id != s[j].id
  }

  /** No row of the server is listed twice; taps without a row may be. */
  ghost predicate UniqueRows(s: seq<Meta>) {
    forall i, j :: 0 <= i < j < |s| ==> s[i].id != s[j].id || s[i].id == 0
  }

  ghost predicate Below(s: seq<Meta>, next: int) {
    forall m :: m in s ==> m.id < next
  }

  ghost predicate Inv(s: State) {
    && 0 < s.next && UniqueRows(s.entries) && Below(s.entries, s.next) && Below(s.file, s.next)
    && (forall m :: m in s.entries ==> !m.hidden)
    && (s.selected.Some? ==> s.selected.value < |s.entries|)
  }

  lemma {:induction false} RebuiltAre(file: seq<Meta>, history: seq<int>)
    ensures forall m :: m in Rebuilt(file, history) <==> m.id in history && m == Restored(file, m.id) && !m.hidden
  {
    if history != [] {
      var n := |history| - 1;
      RebuiltAre(file, history[..n]);
      assert history == history[..n] + [history[n]];
    }
  }

  lemma {:induction false} RebuiltOnce(file: seq<Meta>, history: seq<int>)
    requires forall i, j :: 0 <= i < j < |history| ==> history[i] != history[j]
    ensures UniqueIds(Rebuilt(file, history))
  {
    if history != [] {
      var n := |history| - 1;
      RebuiltOnce(file, history[..n]);
      RebuiltAre(file, history[..n]);
      var before, all := Rebuilt(file, history[..n]), Rebuilt(file, history);
      forall i | 0 <= i < |before|
        ensures before[i].id != history[n]
      {
        assert before[i] in before;
      }
      assert all == before || all == before + [Restored(file, history[n])];
    }
  }

  /** The rebuilt list keeps the order of the history. */
  lemma {:induction false} RebuiltInOrder(file: seq<Meta>, history: seq<int>, i: nat, j: nat) returns (p: nat, q: nat)
    requires i < j < |Rebuilt(file, history)|
    ensures p < q < |history|
    ensures history[p] == Rebuilt(file, history)[i].id && history[q] == Rebuilt(file, history)[j].id
  {
    var n := |history| - 1;
    assert history != [];
    var before := Rebuilt(file, history[..n]);
    if j < |before| {
      p, q := RebuiltInOrder(file, history[..n], i, j);
    } else {
      q := n;
      assert before[i] in before;
      RebuiltAre(file, history[..n]);
      p :| 0 <= p < n && history[..n][p] == before[i].id;
    }
  }

  /** What the three handlers do to the selected entry, to the others and to the file. */
  lemma HandlersDo(s: State, op: Op)
    requires IsWrite(op) && HasSelection(s)
    ensures var i, s' := s.selected.value, Step(s, op);
            var e := s.entries[i];
            var changed := match op
                           case SaveNote(text, _) =>
                             Meta(e.id, if |text| <= 255 then text else text[..255], e.toHandle, e.hidden)
                           case Toggle(_) => Meta(e.id, e.note, !e.toHandle, e.hidden)
                           case _ => Meta(e.id, e.note, e.toHandle, true);
            && s'.next == s.next
            && (if op.ok then s'.file == s.entries[..i] + [changed] + s.entries[i + 1..] else s'.file == s.file)
            && (if op.Delete? then s'.entries == s.entries[..i] + s.entries[i + 1..] && s'.selected == None
                else s'.entries == s.entries[..i] + [changed] + s.entries[i + 1..] && s'.selected == s.selected)
  {
    var i := s.selected.value;
    var m := Changed(op, s.entries[i]);
    assert s.entries[i := m] == s.entries[..i] + [m] + s.entries[i + 1..];
  }

  /** What taps and restarts do: a new entry has no note and no flag and is selected, and a restart selects the
      newest entry that it lists. */
  lemma TapsAndRestartsDo(s: State, history: seq<int>)
    requires IsHistory(Some(history), s.next)
    ensures Step(s, Tap).entries == s.entries + [Meta(s.next, "", false, false)]
    ensures Step(s, Tap).selected == Some(|s.entries|) && Step(s, Tap).next == s.next + 1 && Step(s, Tap).file == s.file
    ensures Step(s, Unrecorded).entries == s.entries + [Meta(0, "", false, false)]
    ensures Step(s, Unrecorded).selected == Some(|s.entries|) && Step(s, Unrecorded).file == s.file
    ensures var s' := Step(s, Restart(Some(history)));
            && (if s'.entries == [] then s'.selected == None else s'.selected == Some(0))
            && s'.file == s.file && forall i :: 0 <= i < |s'.entries| ==> s'.entries[i].id in history
    ensures Step(s, Restart(None)).entries == [] && Step(s, Restart(None)).file == s.file
  {
    RebuiltAre(s.file, history);
  }

  lemma RestartKeeps(s: State, history: Option<seq<int>>)
    requires Inv(s)
    ensures Inv(Step(s, Restart(history)))
  {
    if IsHistory(history, s.next) && history.Some? {
      RebuiltAre(s.file, history.value);
      RebuiltOnce(s.file, history.value);
    }
  }

  lemma EditKeeps(s: State, m: Meta)
    requires Inv(s) && HasSelection(s) && m.id == s.entries[s.selected.value].id
    ensures var t := Edit(s, m).entries;
            && UniqueRows(t) && Below(t, s.next) && |t| == |s.entries|
            && forall k :: k in t ==> k == m || k in s.entries
  {
    var t := Edit(s, m).entries;
    forall k | k in t
      ensures k == m || k in s.entries
    {
      var i :| 0 <= i < |t| && t[i] == k;
      assert i != s.selected.value ==> s.entries[i] == k;
    }
  }

  lemma HandleKeeps(s: State, op: Op)
    requires Inv(s) && IsWrite(op) && HasSelection(s)
    ensures Inv(Handle(s, op))
  {
    var i := s.selected.value;
    EditKeeps(s, Changed(op, s.entries[i]));
    assert s.entries[i] in s.entries;
    if op.Delete? {
      var w := Without(s.entries, i);
      forall j | 0 <= j < |w|
        ensures w[j] == s.entries[if j < i then j else j + 1]
      {
      }
    }
  }

  lemma InvStep(s: State, op: Op)
    requires Inv(s)
    ensures Inv(Step(s, op))
  {
    if op.Restart? {
      RestartKeeps(s, op.history);
    } else if IsWrite(op) && HasSelection(s) {
      HandleKeeps(s, op);
    }
  }

  lemma {:induction false} InvRun(s: State, ops: seq<Op>)
    requires Inv(s)
    ensures Inv(Run(s, ops))
  {
    if ops != [] {
      InvRun(s, ops[..|ops| - 1]);
      InvStep(Run(s, ops[..|ops| - 1]), ops[|ops| - 1]);
    }
  }

  // ---- Memory and file agree ----

  /** The operation writes the state file, and the write succeeds. */
  predicate Saves(s: State, op: Op) {
    IsWrite(op) && op.ok && HasSelection(s)
  }

  /** No write of the state file has failed since the last one that succeeded or the last restart. */
  ghost predicate NothingUnsaved(s: State, ops: seq<Op>) {
    ops == []
    || (var n := |ops| - 1;
        var op, before := ops[n], Run(s, ops[..n]);
        if op.Restart? && IsHistory(op.history, before.next) then true
        else if IsWrite(op) && HasSelection(before) then op.ok
        else NothingUnsaved(s, ops[..n]))
  }

  /** The file gives back every listed row. */
  ghost predicate Synced(s: State) {
    forall m :: m in s.entries && m.id != 0 ==> Restored(s.file, m.id) == m
  }

  lemma {:induction false} RestoredFound(file: seq<Meta>, m: Meta)
    requires UniqueRows(file) && m in file && m.id != 0
    ensures Restored(file, m.id) == m
  {
    if file[0] != m {
      var i :| 0 < i < |file| && file[i] == m;
      assert file[0].id != file[i].id;
      assert file[1..][i - 1] == m;
      RestoredFound(file[1..], m);
    }
  }

  lemma {:induction false} RestoredMissing(file: seq<Meta>, id: int)
    requires forall m :: m in file ==> m.id != id
    ensures Restored(file, id) == Fresh(id)
  {
    if file != [] { RestoredMissing(file[1..], id); }
  }

  lemma {:induction false} RestoredIsThere(file: seq<Meta>, id: int)
    ensures Restored(file, id) == Fresh(id) || Restored(file, id) in file
  {
    if file != [] { RestoredIsThere(file[1..], id); }
  }

  /** After a successful write the file gives back every listed entry, and a deleted one as hidden. */
  lemma SaveSyncs(s: State, op: Op)
    requires Inv(s) && Saves(s, op)
    ensures Synced(Step(s, op))
  {
    var s' := Step(s, op);
    InvStep(s, op);
    var m := Changed(op, s.entries[s.selected.value]);
    EditKeeps(s, m);
    assert s'.file == Edit(s, m).entries;
    forall k | k in s'.entries && k.id != 0
      ensures Restored(s'.file, k.id) == k
    {
      if op.Delete? { KeptInFile(s, m, k); }
      RestoredFound(s'.file, k);
    }
  }

  lemma KeptInFile(s: State, m: Meta, k: Meta)
    requires HasSelection(s) && k in Without(s.entries, s.selected.value)
    ensures k in Edit(s, m).entries
  {
    var w, i := Without(s.entries, s.selected.value), s.selected.value;
    var j :| 0 <= j < |w| && w[j] == k;
    assert Edit(s, m).entries[if j < i then j else j + 1] == k;
  }

  lemma OtherStepsStaySynced(s: State, op: Op)
    requires Inv(s) && Synced(s) && !(IsWrite(op) && HasSelection(s)) && !op.Restart?
    ensures Synced(Step(s, op))
  {
    if op.Tap? {
      RestoredMissing(s.file, s.next);
      assert Step(s, op).entries == s.entries + [Fresh(s.next)];
    } else if op.Unrecorded? {
      assert Step(s, op).entries == s.entries + [Fresh(0)];
    }
  }

  lemma {:induction false} RunIsSynced(ops: seq<Op>)
    requires NothingUnsaved(EMPTY, ops)
    ensures Synced(Run(EMPTY, ops))
  {
    if ops != [] {
      var n := |ops| - 1;
      var before, op := Run(EMPTY, ops[..n]), ops[n];
      InvRun(EMPTY, ops[..n]);
      if op.Restart? {
        if IsHistory(op.history, before.next) {
          if op.history.Some? { RebuiltAre(before.file, op.history.value); }
        } else {
          RunIsSynced(ops[..n]);
        }
      } else if IsWrite(op) && HasSelection(before) {
        SaveSyncs(before, op);
      } else {
        RunIsSynced(ops[..n]);
        OtherStepsStaySynced(before, op);
      }
    }
  }

  /** After any run with nothing unsaved, a restart brings back every listed entry that the history still
      holds, with the note and flag it had; and whatever else it lists is hidden in no record of the file. */
  lemma RestartRebuilds(ops: seq<Op>, history: seq<int>)
    requires NothingUnsaved(EMPTY, ops) && IsHistory(Some(history), Run(EMPTY, ops).next)
    ensures var s, s' := Run(EMPTY, ops), Step(Run(EMPTY, ops), Restart(Some(history)));
            && (forall m :: m in s.entries && m.id in history ==> m in s'.entries)
            && (forall m :: m in s'.entries ==>
                  m.id in history && (m in s.entries || forall k :: k in s.entries ==> k.id != m.id))
            && UniqueIds(s'.entries)
  {
    var s := Run(EMPTY, ops);
    RunIsSynced(ops);
    InvRun(EMPTY, ops);
    RebuiltAre(s.file, history);
    RebuiltOnce(s.file, history);
  }

  // ---- Deleted entries ----

  ghost predicate SavesIn(s: State, ops: seq<Op>) {
    ops != [] && (SavesIn(s, ops[..|ops| - 1]) || Saves(Run(s, ops[..|ops| - 1]), ops[|ops| - 1]))
  }

  /** The operation deletes the entry with this id. */
  predicate Deletes(s: State, op: Op, id: int) {
    op.Delete? && HasSelection(s) && s.entries[s.selected.value].id == id
  }

  ghost predicate DeletesIn(s: State, ops: seq<Op>, id: int) {
    ops != [] && (DeletesIn(s, ops[..|ops| - 1], id) || Deletes(Run(s, ops[..|ops| - 1]), ops[|ops| - 1], id))
  }

  ghost predicate Listed(s: State, id: int) {
    exists m :: m in s.entries && m.id == id
  }

  /** Hidden by the file and gone from memory. */
  ghost predicate Gone(s: State, id: int) {
    0 < id < s.next && Restored(s.file, id).hidden && !Listed(s, id)
  }

  /** Not hidden by the file. */
  ghost predicate Back(s: State, id: int) {
    !Restored(s.file, id).hidden
  }

  lemma DeleteHides(s: State, id: int)
    requires Inv(s) && Deletes(s, Delete(true), id) && 0 < id
    ensures Gone(Step(s, Delete(true)), id)
  {
    var i := s.selected.value;
    var m := s.entries[i].(hidden := true);
    EditKeeps(s, m);
    assert Edit(s, m).entries[i] == m;
    RestoredFound(Edit(s, m).entries, m);
    forall k | k in Without(s.entries, i)
      ensures k.id != id
    {
      var w := Without(s.entries, i);
      var j :| 0 <= j < |w| && w[j] == k;
      assert k == s.entries[if j < i then j else j + 1];
    }
  }

  lemma GoneStays(s: State, op: Op, id: int)
    requires Inv(s) && Gone(s, id) && !Saves(s, op)
    ensures Gone(Step(s, op), id)
  {
    if op.Restart? && IsHistory(op.history, s.next) && op.history.Some? {
      RebuiltAre(s.file, op.history.value);
    } else if op.Tap? {
      assert Step(s, op).entries == s.entries + [Fresh(s.next)];
    } else if op.Unrecorded? {
      assert Step(s, op).entries == s.entries + [Fresh(0)];
    } else if IsWrite(op) && HasSelection(s) {
      SameIds(s, op, id);
    }
  }

  /** A handler lists no id that was not listed. */
  lemma SameIds(s: State, op: Op, id: int)
    requires IsWrite(op) && HasSelection(s) && !Listed(s, id)
    ensures !Listed(Step(s, op), id)
  {
    var s', i := Step(s, op), s.selected.value;
    forall m | m in s'.entries
      ensures m.id != id
    {
      var j :| 0 <= j < |s'.entries| && s'.entries[j] == m;
      var k := if op.Delete? && j >= i then j + 1 else j;
      assert s.entries[k] in s.entries;
      assert s.entries[k].id == m.id;
    }
  }

  /** A save writes this id as not hidden, or not at all, unless it deletes it. */
  lemma SaveBringsBack(s: State, op: Op, id: int)
    requires Inv(s) && Saves(s, op) && !Deletes(s, op, id)
    ensures Back(Step(s, op), id)
  {
    var file := Step(s, op).file;
    RestoredIsThere(file, id);
    if Restored(file, id) in file {
      var j :| 0 <= j < |file| && file[j] == Restored(file, id);
      assert s.entries[j] in s.entries;
      assert j != s.selected.value ==> file[j] == s.entries[j];
    }
  }

  lemma AfterDeleteStep(s: State, op: Op, id: int, saved: bool)
    requires Inv(s) && !Deletes(s, op, id) && if saved then Back(s, id) else Gone(s, id)
    ensures if saved || Saves(s, op) then Back(Step(s, op), id) else Gone(Step(s, op), id)
  {
    if Saves(s, op) {
      SaveBringsBack(s, op, id);
    } else if saved {
      assert Step(s, op).file == s.file;
    } else {
      GoneStays(s, op, id);
    }
  }

  lemma {:induction false} AfterDelete(s: State, ops: seq<Op>, id: int, saved: bool)
    requires Inv(s) && !DeletesIn(s, ops, id) && if saved then Back(s, id) else Gone(s, id)
    ensures if saved || SavesIn(s, ops) then Back(Run(s, ops), id) else Gone(Run(s, ops), id)
  {
    if ops != [] {
      var n := |ops| - 1;
      AfterDelete(s, ops[..n], id, saved);
      InvRun(s, ops[..n]);
      AfterDeleteStep(Run(s, ops[..n]), ops[n], id, saved || SavesIn(s, ops[..n]));
    }
  }

  /** The file hides no listed row. */
  ghost predicate NoneHiddenInFile(s: State) {
    forall m :: m in s.entries && m.id != 0 ==> Back(s, m.id)
  }

  lemma NoneHiddenStep(s: State, op: Op)
    requires Inv(s) && NoneHiddenInFile(s)
    ensures NoneHiddenInFile(Step(s, op))
  {
    var s' := Step(s, op);
    InvStep(s, op);
    if Saves(s, op) {
      SaveSyncs(s, op);
    } else if op.Restart? && IsHistory(op.history, s.next) && op.history.Some? {
      RebuiltAre(s.file, op.history.value);
    } else if op.Tap? {
      RestoredMissing(s.file, s.next);
    } else if IsWrite(op) && HasSelection(s) {
      forall m | m in s'.entries && m.id != 0
        ensures Back(s', m.id)
      {
        if !Listed(s, m.id) { SameIds(s, op, m.id); }
      }
    }
  }

  lemma {:induction false} NoneHiddenRun(ops: seq<Op>)
    ensures NoneHiddenInFile(Run(EMPTY, ops))
  {
    if ops != [] {
      NoneHiddenRun(ops[..|ops| - 1]);
      InvRun(EMPTY, ops[..|ops| - 1]);
      NoneHiddenStep(Run(EMPTY, ops[..|ops| - 1]), ops[|ops| - 1]);
    }
  }

  /** A deletion that was not written leaves the file without a trace of it. */
  lemma DeleteUnwritten(s: State, id: int)
    requires NoneHiddenInFile(s) && Deletes(s, Delete(false), id) && 0 < id
    ensures Back(Step(s, Delete(false)), id)
  {
    assert s.entries[s.selected.value] in s.entries;
  }

  /** A deleted entry stays hidden exactly until the next save, if the deletion itself was written, and not at
      all otherwise: whatever else happens after it, restarts included, a restart lists the entry if and only
      if its history holds it and the deletion was not written or the state file has been saved since. */
  lemma HiddenUntilNextSave(start: seq<Op>, written: bool, later: seq<Op>, id: int, history: seq<int>)
    requires Deletes(Run(EMPTY, start), Delete(written), id)
    requires var s := Step(Run(EMPTY, start), Delete(written));
             !DeletesIn(s, later, id) && IsHistory(Some(history), Run(s, later).next)
    ensures var s := Step(Run(EMPTY, start), Delete(written));
            Listed(Step(Run(s, later), Restart(Some(history))), id) <==>
              id in history && (!written || SavesIn(s, later))
  {
    var s0 := Run(EMPTY, start);
    var s := Step(s0, Delete(written));
    InvRun(EMPTY, start);
    InvStep(s0, Delete(written));
    if 0 < id {
      if written {
        DeleteHides(s0, id);
      } else {
        NoneHiddenRun(start);
        DeleteUnwritten(s0, id);
      }
      AfterDelete(s, later, id, !written);
    }
    ListedAfterRestart(Run(s, later), history, id);
  }

  lemma ListedAfterRestart(s: State, history: seq<int>, id: int)
    requires IsHistory(Some(history), s.next)
    ensures Listed(Step(s, Restart(Some(history))), id) <==> id in history && Back(s, id)
  {
    RebuiltAre(s.file, history);
    if id in history && Back(s, id) {
      assert Restored(s.file, id) in Rebuilt(s.file, history);
    }
  }

  // ---- Saved notes ----

  /** The note of this entry, in the file and wherever it is listed. */
  ghost predicate NoteIs(s: State, id: int, note: string) {
    && 0 < id < s.next && Restored(s.file, id).note == note && !Restored(s.file, id).hidden
    && forall m :: m in s.entries && m.id == id ==> m.note == note
  }

  /** The operation edits the note of the entry with this id, or deletes it. */
  predicate Touches(s: State, op: Op, id: int) {
    (op.SaveNote? || op.Delete?) && HasSelection(s) && s.entries[s.selected.value].id == id
  }

  ghost predicate TouchesIn(s: State, ops: seq<Op>, id: int) {
    ops != [] && (TouchesIn(s, ops[..|ops| - 1], id) || Touches(Run(s, ops[..|ops| - 1]), ops[|ops| - 1], id))
  }

  /** The file was saved while the entry was not listed. */
  ghost predicate DroppedIn(s: State, ops: seq<Op>, id: int) {
    ops != []
    && (var n := |ops| - 1;
        DroppedIn(s, ops[..n], id) || (Saves(Run(s, ops[..n]), ops[n]) && !Listed(Run(s, ops[..n]), id)))
  }

  /** What a handler lists under this id it listed before, with the same note, unless it touches it. */
  lemma EditedNotes(s: State, op: Op, id: int, note: string)
    requires Inv(s) && IsWrite(op) && HasSelection(s) && !Touches(s, op, id)
    requires forall m :: m in s.entries && m.id == id ==> m.note == note
    ensures var t := Edit(s, Changed(op, s.entries[s.selected.value])).entries;
            forall m :: m in t && m.id == id ==> m.note == note && !m.hidden
    ensures forall m :: m in Handle(s, op).entries && m.id == id ==> m.note == note
  {
    var i := s.selected.value;
    var t := Edit(s, Changed(op, s.entries[i])).entries;
    assert s.entries[i] in s.entries;
    forall m | m in t && m.id == id
      ensures m.note == note && !m.hidden
    {
      var j :| 0 <= j < |t| && t[j] == m;
      assert s.entries[j] in s.entries;
    }
    forall m | m in Handle(s, op).entries && m.id == id
      ensures m.note == note
    {
      if op.Delete? { KeptInFile(s, Changed(op, s.entries[i]), m); }
    }
  }

  lemma SavedNote(s: State, op: Op, id: int, note: string)
    requires Inv(s) && Saves(s, op) && !Touches(s, op, id) && NoteIs(s, id, note)
    ensures NoteIs(Step(s, op), id, if Listed(s, id) then note else "")
  {
    var file := Edit(s, Changed(op, s.entries[s.selected.value])).entries;
    EditedNotes(s, op, id, note);
    EditKeeps(s, Changed(op, s.entries[s.selected.value]));
    if Listed(s, id) {
      var m :| m in s.entries && m.id == id;
      var j :| 0 <= j < |s.entries| && s.entries[j] == m;
      assert file[j] in file && file[j].id == id;
      RestoredFound(file, file[j]);
    } else {
      forall m | m in file
        ensures m.id != id
      {
        var j :| 0 <= j < |file| && file[j] == m;
        assert s.entries[j] in s.entries;
      }
      RestoredMissing(file, id);
      SameIds(s, op, id);
    }
  }

  lemma NoteStep(s: State, op: Op, id: int, note: string)
    requires Inv(s) && !Touches(s, op, id) && NoteIs(s, id, note)
    ensures NoteIs(Step(s, op), id, if Saves(s, op) && !Listed(s, id) then "" else note)
  {
    if Saves(s, op) {
      SavedNote(s, op, id, note);
    } else if IsWrite(op) && HasSelection(s) {
      EditedNotes(s, op, id, note);
    } else if op.Restart? && IsHistory(op.history, s.next) && op.history.Some? {
      RebuiltAre(s.file, op.history.value);
    } else if op.Tap? {
      assert Step(s, op).entries == s.entries + [Fresh(s.next)];
    } else if op.Unrecorded? {
      assert Step(s, op).entries == s.entries + [Fresh(0)];
    }
  }

  lemma {:induction false} NoteRun(s: State, ops: seq<Op>, id: int, note: string)
    requires Inv(s) && !TouchesIn(s, ops, id) && NoteIs(s, id, note)
    ensures NoteIs(Run(s, ops), id, if DroppedIn(s, ops, id) then "" else note)
  {
    if ops != [] {
      var n := |ops| - 1;
      NoteRun(s, ops[..n], id, note);
      InvRun(s, ops[..n]);
      NoteStep(Run(s, ops[..n]), ops[n], id, if DroppedIn(s, ops[..n], id) then "" else note);
    }
  }

  lemma NoteIsSaved(s: State, text: string)
    requires Inv(s) && HasSelection(s) && 0 < s.entries[s.selected.value].id
    ensures NoteIs(Step(s, SaveNote(text, true)), s.entries[s.selected.value].id, Clip(text))
  {
    var i, s' := s.selected.value, Step(s, SaveNote(text, true));
    var m := Changed(SaveNote(text, true), s.entries[i]);
    EditKeeps(s, m);
    assert s.entries[i] in s.entries && s'.file[i] == m;
    RestoredFound(s'.file, m);
    forall k | k in s'.entries && k.id == m.id
      ensures k == m
    {
      var j :| 0 <= j < |s'.entries| && s'.entries[j] == k;
    }
  }

  /** A saved note comes back after any later run, restarts and failed writes included, exactly when the file
      was never saved while its entry was not listed; otherwise it comes back empty. */
  lemma NoteSurvivesExactly(start: seq<Op>, text: string, later: seq<Op>, history: seq<int>)
    requires HasSelection(Run(EMPTY, start))
    requires var s0 := Run(EMPTY, start);
             var s := Step(s0, SaveNote(text, true));
             && !TouchesIn(s, later, s0.entries[s0.selected.value].id) && IsHistory(Some(history), Run(s, later).next)
             && s0.entries[s0.selected.value].id in history
    ensures var s0 := Run(EMPTY, start);
            var s, id := Step(s0, SaveNote(text, true)), s0.entries[s0.selected.value].id;
            exists m :: m in Step(Run(s, later), Restart(Some(history))).entries && m.id == id
                        && m.note == if DroppedIn(s, later, id) then "" else Clip(text)
  {
    var s0 := Run(EMPTY, start);
    var s, id := Step(s0, SaveNote(text, true)), s0.entries[s0.selected.value].id;
    InvRun(EMPTY, start);
    InvStep(s0, SaveNote(text, true));
    NoteIsSaved(s0, text);
    NoteRun(s, later, id, Clip(text));
    RebuiltAre(Run(s, later).file, history);
    assert Restored(Run(s, later).file, id) in Rebuilt(Run(s, later).file, history);
  }

  // ---- Two runs the documentation does not expect ----

  lemma RunLast(s: State, ops: seq<Op>, op: Op)
    ensures Run(s, ops + [op]) == Step(Run(s, ops), op)
  {
    assert (ops + [op])[..|ops|] == ops;
  }

  lemma RunTwice(s: State, a: Op, b: Op)
    ensures Run(s, [a, b]) == Step(Step(s, a), b)
  {
    RunLast(s, [a], b);
    RunLast(s, [], a);
    assert [a] + [b] == [a, b] && [] + [a] == [a];
  }

  lemma RebuiltPair(file: seq<Meta>, a: int, b: int)
    requires !Restored(file, a).hidden && !Restored(file, b).hidden
    ensures Rebuilt(file, [a, b]) == [Restored(file, a), Restored(file, b)]
  {
    assert [a, b][..1] == [a] && [a][..0] == [];
    assert Rebuilt(file, [a]) == [Restored(file, a)];
  }

  /** Two badges; the second is deleted, the first is flagged: after a restart the deleted one is listed. */
  lemma DeletedComesBack()
    ensures var s := Run(EMPTY, [Tap, Tap, Delete(true), Select(0), Toggle(true)]);
            Step(s, Restart(Some([2, 1]))).entries == [Meta(2, "", false, false), Meta(1, "", true, false)]
  {
    RunTwice(EMPTY, Tap, Tap);
    RunLast(EMPTY, [Tap, Tap], Delete(true));
    RunLast(EMPTY, [Tap, Tap, Delete(true)], Select(0));
    RunLast(EMPTY, [Tap, Tap, Delete(true), Select(0)], Toggle(true));
    assert Run(EMPTY, [Tap, Tap]) == State([Fresh(1), Fresh(2)], Some(1), [], 3);
    assert Run(EMPTY, [Tap, Tap, Delete(true)]) == State([Fresh(1)], None, [Fresh(1), Meta(2, "", false, true)], 3);
    var s := Run(EMPTY, [Tap, Tap, Delete(true), Select(0), Toggle(true)]);
    assert [Tap, Tap, Delete(true)] + [Select(0)] == [Tap, Tap, Delete(true), Select(0)];
    assert [Tap, Tap, Delete(true), Select(0)] + [Toggle(true)] == [Tap, Tap, Delete(true), Select(0), Toggle(true)];
    assert s == State([Meta(1, "", true, false)], Some(0), [Meta(1, "", true, false)], 3);
    OneRecord(s.file, 2);
    RebuiltPair(s.file, 2, 1);
  }

  lemma OneRecord(file: seq<Meta>, id: int)
    requires |file| == 1
    ensures Restored(file, id) == if file[0].id == id then file[0] else Fresh(id)
  {
    assert file[1..] == [];
  }

  lemma NoteThenFailedFetch(note: string)
    ensures Run(EMPTY, [Tap, SaveNote(note, true), Restart(None)])
         == State([], None, [Meta(1, Clip(note), false, false)], 2)
  {
    RunTwice(EMPTY, Tap, SaveNote(note, true));
    RunLast(EMPTY, [Tap, SaveNote(note, true)], Restart(None));
    assert [Tap, SaveNote(note, true)] + [Restart(None)] == [Tap, SaveNote(note, true), Restart(None)];
    var m := Meta(1, Clip(note), false, false);
    assert Step(EMPTY, Tap) == State([Fresh(1)], Some(0), [], 2);
    assert Run(EMPTY, [Tap, SaveNote(note, true)]) == State([m], Some(0), [m], 2);
  }

  /** A note is lost when a start without history is followed by a save. */
  lemma FailedFetchLosesNotes(note: string)
    ensures var s := Run(EMPTY, [Tap, SaveNote(note, true), Restart(None)] + [Tap] + [Toggle(true)]);
            Step(s, Restart(Some([2, 1]))).entries == [Meta(2, "", true, false), Fresh(1)]
  {
    var lost := [Tap, SaveNote(note, true), Restart(None)];
    NoteThenFailedFetch(note);
    RunLast(EMPTY, lost, Tap);
    RunLast(EMPTY, lost + [Tap], Toggle(true));
    assert Run(EMPTY, lost + [Tap]).entries == [Fresh(2)];
    var s := Run(EMPTY, lost + [Tap] + [Toggle(true)]);
    assert s == State([Meta(2, "", true, false)], Some(0), [Meta(2, "", true, false)], 3);
    OneRecord(s.file, 1);
    RebuiltPair(s.file, 2, 1);
  }
}
