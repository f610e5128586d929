/** The pure fragments of the page editor (app/pages/Editor.tsx): binding a
    plugin screen to a key of a page's screen list, the picker label that
    names a plugin screen and its decoding, and the rule that enables the
    "add page" button. */
module Editor {
  import opened Wrappers
  import opened Registry
  import opened Controller

  // ---------------------------------------------------------------------
  // Screen bindings
  // ---------------------------------------------------------------------

  /** One `[location, pluginId]` pair of a page's `screen` list, as the
      editor holds it before it is sent to the controller. */
  datatype Entry = Entry(location: KeyLocation, binding: PluginIdentifier)

  /** The locations a screen list binds. */
  function Locations(s: seq<Entry>): set<KeyLocation>
  {
    set k | 0 <= k < |s| :: s[k].location
  }

  /** No location is bound twice. */
  predicate UniqueLocations(s: seq<Entry>)
  {
    forall i, j :: 0 <= i < j < |s| ==> s[i].location != s[j].location
  }

  /** `findIndex` comparing `x` and `y`: the first entry at `loc`, or -1. */
  function FindIndex(s: seq<Entry>, loc: KeyLocation): (i: int)
    ensures -1 <= i < |s|
    ensures i == -1 <==> loc !in Locations(s)
    ensures i >= 0 ==> s[i].location == loc && forall k :: 0 <= k < i ==> s[k].location != loc
    decreases |s|
  {
    if |s| == 0 then -1
    else if s[0].location.x == loc.x && s[0].location.y == loc.y then 0
    else
      var j := FindIndex(s[1..], loc);
      assert Locations(s) == Locations(s[1..]) + {s[0].location} by {
        forall l | l in Locations(s) ensures l in Locations(s[1..]) + {s[0].location} {
          var k :| 0 <= k < |s| && s[k].location == l;
          if k > 0 { assert s[1..][k - 1] == s[k]; }
        }
      }
      if j == -1 then -1 else j + 1
  }

  /** An entry at `loc` with none before it is the one `findIndex` finds. */
  lemma FindIndexIsFirst(s: seq<Entry>, loc: KeyLocation, i: nat)
    requires i < |s| && s[i].location == loc
    requires forall k :: 0 <= k < i ==> s[k].location != loc
    ensures FindIndex(s, loc) == i
  {
    assert loc in Locations(s);
  }

  /** The `onChange` upsert: the first entry at `loc` is overwritten with the
      new binding, or the binding is appended when `loc` has none. Every
      other entry keeps its place and value. */
  function Upsert(s: seq<Entry>, loc: KeyLocation, id: PluginIdentifier): (r: seq<Entry>)
    ensures |r| == if loc in Locations(s) then |s| else |s| + 1
    ensures Locations(r) == Locations(s) + {loc}
    ensures forall k :: 0 <= k < |s| && s[k].location != loc ==> r[k] == s[k]
    ensures Entry(loc, id) in r
    ensures |r| > |s| ==> r[|s|] == Entry(loc, id)
  {
    var found := FindIndex(s, loc);
    var at := if found == -1 then |s| else found;
    if at == |s| then
      var r := s + [Entry(loc, id)];
      assert Locations(r) == Locations(s) + {loc} by {
        forall l | l in Locations(r) ensures l in Locations(s) + {loc} {
          var k :| 0 <= k < |r| && r[k].location == l;
          if k < |s| { assert r[k] == s[k]; }
        }
        forall l | l in Locations(s) + {loc} ensures l in Locations(r) {
          if l == loc {
            assert r[|s|].location == loc;
          } else {
            var k :| 0 <= k < |s| && s[k].location == l;
            assert r[k] == s[k];
          }
        }
      }
      r
    else
      var r := s[at := Entry(loc, id)];
      assert Locations(r) == Locations(s) by {
        forall l | l in Locations(s) ensures l in Locations(r) {
          var k :| 0 <= k < |s| && s[k].location == l;
          assert r[k].location == l;
        }
        forall l | l in Locations(r) ensures l in Locations(s) {
          var k :| 0 <= k < |r| && r[k].location == l;
          assert s[k].location == l;
        }
      }
      assert r[at] == Entry(loc, id);
      r
  }

  /** An upsert keeps a screen list free of duplicate locations. */
  lemma UpsertKeepsUnique(s: seq<Entry>, loc: KeyLocation, id: PluginIdentifier)
    requires UniqueLocations(s)
    ensures UniqueLocations(Upsert(s, loc, id))
  {
    var r := Upsert(s, loc, id);
    forall i, j | 0 <= i < j < |r|
      ensures r[i].location != r[j].location
    {
      if loc in Locations(s) {
        var f := FindIndex(s, loc);
        if i == f {
          assert s[j].location != loc;
        } else if j == f {
          assert s[i].location != loc;
        }
      } else if j == |s| {
        assert s[i] in s;
      }
    }
  }

  /** Binding the same location twice leaves only the second binding: the
      second call finds the entry the first one wrote. */
  lemma UpsertTwice(s: seq<Entry>, loc: KeyLocation, v1: PluginIdentifier, v2: PluginIdentifier)
    ensures Upsert(Upsert(s, loc, v1), loc, v2) == Upsert(s, loc, v2)
  {
    var once := Upsert(s, loc, v1);
    var f := FindIndex(s, loc);
    if f == -1 {
      assert FindIndex(once, loc) == |s|;
    } else {
      assert once[f].location == loc;
      assert forall k :: 0 <= k < f ==> once[k] == s[k];
      FindIndexIsFirst(once, loc, f);
    }
  }

  /** On a list without duplicate locations, two successive bindings of one
      key leave exactly one entry there, holding the second binding. */
  lemma UpsertTwiceSingleEntry(s: seq<Entry>, loc: KeyLocation, v1: PluginIdentifier, v2: PluginIdentifier)
    requires UniqueLocations(s)
    ensures var r := Upsert(Upsert(s, loc, v1), loc, v2);
            && UniqueLocations(r)
            && Entry(loc, v2) in r
            && (v1 != v2 ==> Entry(loc, v1) !in r)
  {
    UpsertTwice(s, loc, v1, v2);
    UpsertKeepsUnique(s, loc, v2);
  }

  /** The page's `screen` map once the list reaches the controller: pairs are
      inserted in order, so a later pair for a location wins. */
  function ToMap(s: seq<Entry>): map<KeyLocation, PluginIdentifier>
    decreases |s|
  {
    if |s| == 0 then map[]
    else ToMap(s[..|s| - 1])[s[|s| - 1].location := s[|s| - 1].binding]
  }

  /** The map binds exactly the list's locations, each to the binding of the
      last entry there. */
  lemma {:induction false} ToMapLookup(s: seq<Entry>, loc: KeyLocation)
    ensures loc in ToMap(s) <==> loc in Locations(s)
    ensures loc in ToMap(s) ==> exists k :: 0 <= k < |s| && s[k] == Entry(loc, ToMap(s)[loc])
                                          && forall j :: k < j < |s| ==> s[j].location != loc
    decreases |s|
  {
    if |s| > 0 {
      var init := s[..|s| - 1];
      ToMapLookup(init, loc);
      if s[|s| - 1].location == loc {
        assert s[|s| - 1] == Entry(loc, ToMap(s)[loc]);
      } else {
        if loc in Locations(s) {
          var k :| 0 <= k < |s| && s[k].location == loc;
          assert init[k] == s[k];
        }
        if loc in ToMap(s) {
          var k :| 0 <= k < |init| && init[k] == Entry(loc, ToMap(init)[loc])
                   && forall j :: k < j < |init| ==> init[j].location != loc;
          assert s[k] == init[k];
        }
      }
    }
  }

  /** Two updates at different keys commute. */
  lemma UpdatesCommute(m: map<KeyLocation, PluginIdentifier>, a: KeyLocation, x: PluginIdentifier, b: KeyLocation, y: PluginIdentifier)
    requires a != b
    ensures m[a := x][b := y] == m[b := y][a := x]
  {
  }

  /** Overwriting an entry with one at the same location, in a list without
      duplicate locations, updates that location in the map. */
  lemma {:induction false} ToMapOverwrite(s: seq<Entry>, i: nat, e: Entry)
    requires UniqueLocations(s) && i < |s| && s[i].location == e.location
    ensures ToMap(s[i := e]) == ToMap(s)[e.location := e.binding]
    decreases |s|
  {
    var t := s[i := e];
    var init := s[..|s| - 1];
    var last := s[|s| - 1];
    if i == |s| - 1 {
      assert t[..|t| - 1] == init;
    } else {
      assert t[..|t| - 1] == init[i := e];
      assert t[|t| - 1] == last;
      assert last.location != e.location;
      ToMapOverwrite(init, i, e);
      UpdatesCommute(ToMap(init), e.location, e.binding, last.location, last.binding);
    }
  }

  /** Binding a key in the editor and saving the page binds that key in the
      controller's page and leaves every other key as it was. */
  lemma UpsertAsMap(s: seq<Entry>, loc: KeyLocation, id: PluginIdentifier)
    requires UniqueLocations(s)
    ensures ToMap(Upsert(s, loc, id)) == ToMap(s)[loc := id]
  {
    var f := FindIndex(s, loc);
    if f == -1 {
      var r := Upsert(s, loc, id);
      assert r[..|r| - 1] == s;
    } else {
      ToMapOverwrite(s, f, Entry(loc, id));
    }
  }

  // ---------------------------------------------------------------------
  // Picker labels
  // ---------------------------------------------------------------------

  /** The separator between a plugin's id and its screen name in a label. */
  const Separator: string := " - "

  /** The separator starts at index `i` of `s`. */
  predicate SeparatorAt(s: string, i: nat)
  {
    i + 3 <= |s| && s[i] == ' ' && s[i + 1] == '-' && s[i + 2] == ' '
  }

  /** `s` contains no separator. */
  predicate NoSeparator(s: string)
  {
    forall k: nat :: k < |s| ==> !SeparatorAt(s, k)
  }

  /** The picker label of a plugin screen, `${plugin_id} - ${plugin_ref}`. */
  function Label(id: PluginIdentifier): (s: string)
    ensures |s| == |id.pluginId| + 3 + |id.pluginRef|
    ensures forall k :: 0 <= k < |id.pluginId| ==> s[k] == id.pluginId[k]
    ensures s[..|id.pluginId|] == id.pluginId && s[|id.pluginId| + 3..] == id.pluginRef
    ensures SeparatorAt(s, |id.pluginId|)
  {
    id.pluginId + Separator + id.pluginRef
  }

  /** The first separator in `s` at or after `from`, scanning left to right
      as `split` does. */
  function FindSeparatorFrom(s: string, from: nat): (r: Option<nat>)
    requires from <= |s|
    ensures r.Some? ==> from <= r.value && SeparatorAt(s, r.value)
    ensures r.Some? ==> forall k: nat :: from <= k < r.value ==> !SeparatorAt(s, k)
    ensures r.None? ==> forall k: nat :: from <= k < |s| ==> !SeparatorAt(s, k)
    decreases |s| - from
  {
    if from + 3 > |s| then None
    else if SeparatorAt(s, from) then Some(from)
    else FindSeparatorFrom(s, from + 1)
  }

  /** The first separator in `s`. */
  function FindSeparator(s: string): (r: Option<nat>)
    ensures r.Some? ==> SeparatorAt(s, r.value) && forall k: nat :: k < r.value ==> !SeparatorAt(s, k)
    ensures r.None? <==> NoSeparator(s)
  {
    FindSeparatorFrom(s, 0)
  }

  /** JavaScript's `split(" - ")`: the pieces between separators, left to
      right; a string without a separator is one piece. */
  function Split(s: string): (parts: seq<string>)
    ensures |parts| >= 1
    ensures NoSeparator(s) ==> parts == [s]
    ensures !NoSeparator(s) ==> |parts| >= 2 && parts[0] == s[..FindSeparator(s).value]
    decreases |s|
  {
    match FindSeparator(s)
    case None => [s]
    case Some(i) => [s[..i]] + Split(s[i + 3..])
  }

  /** The first piece of a split is the whole string exactly when there is
      no separator to split at. */
  lemma SplitHeadWhole(s: string)
    ensures Split(s)[0] == s <==> NoSeparator(s)
  {
    if !NoSeparator(s) {
      assert |Split(s)[0]| < |s|;
    }
  }

  /** The picked identifier: `const [pluginId, pluginRef] = value.split(" - ")`,
      where `pluginRef` is undefined when there is no separator. */
  datatype Picked = Picked(pluginId: string, pluginRef: Option<string>)

  function DecodeLabel(text: string): (p: Picked)
    ensures p.pluginRef.None? <==> NoSeparator(text)
    ensures p.pluginRef.Some? ==>
              var i := FindSeparator(text).value;
              p.pluginId == text[..i] && p.pluginRef.value == Split(text[i + 3..])[0]
  {
    var parts := Split(text);
    Picked(parts[0], if |parts| > 1 then Some(parts[1]) else None)
  }

  /** An id whose label's first separator is the one `Label` put there: no
      separator inside it, and no trailing " -" (which with the label's
      separator would read as an earlier " - "). */
  predicate IdSafe(pluginId: string)
  {
    && NoSeparator(pluginId)
    && !(|pluginId| >= 2 && pluginId[|pluginId| - 2] == ' ' && pluginId[|pluginId| - 1] == '-')
  }

  /** An identifier whose label decodes unambiguously. */
  predicate LabelSafe(id: PluginIdentifier)
  {
    IdSafe(id.pluginId) && NoSeparator(id.pluginRef)
  }

  /** A label's first separator is the one between the fields exactly when
      the id is safe. */
  lemma FirstSeparatorOfLabel(id: PluginIdentifier)
    ensures FindSeparator(Label(id)).Some?
    ensures FindSeparator(Label(id)).value == |id.pluginId| <==> IdSafe(id.pluginId)
  {
    var s := Label(id);
    var n := |id.pluginId|;
    var p := id.pluginId;
    if n >= 2 && p[n - 2] == ' ' && p[n - 1] == '-' {
      assert SeparatorAt(s, n - 2);
    }
    if !NoSeparator(p) {
      var k: nat :| k < |p| && SeparatorAt(p, k);
      assert s[k] == p[k] && s[k + 1] == p[k + 1] && s[k + 2] == p[k + 2];
      assert SeparatorAt(s, k);
    }
    if IdSafe(p) {
      forall k: nat | k < n ensures !SeparatorAt(s, k) {
        if k + 3 <= n {
          assert s[k] == p[k] && s[k + 1] == p[k + 1] && s[k + 2] == p[k + 2];
          assert !SeparatorAt(p, k);
        } else if k == n - 1 {
          assert s[k + 1] == ' ';
        }
      }
    }
  }

  /** The label of an identifier decodes to that identifier exactly when the
      identifier is label-safe. */
  lemma LabelRoundTrip(id: PluginIdentifier)
    ensures DecodeLabel(Label(id)) == Picked(id.pluginId, Some(id.pluginRef)) <==> LabelSafe(id)
  {
    var s := Label(id);
    var n := |id.pluginId|;
    FirstSeparatorOfLabel(id);
    var i := FindSeparator(s).value;
    var d := DecodeLabel(s);
    assert d.pluginId == s[..i];
    if i == n {
      assert s[i + 3..] == id.pluginRef;
      SplitHeadWhole(id.pluginRef);
    } else {
      assert |d.pluginId| != n;
    }
  }

  /** A plugin id ending in " -" comes back cut short: its last two
      characters and the separator read as " - - ". */
  lemma LabelCounterexample()
    ensures DecodeLabel(Label(PluginIdentifier("clock -", "face"))) == Picked("clock", Some("- face"))
  {
    var id := PluginIdentifier("clock -", "face");
    FirstSeparatorOfLabel(id);
    var s := Label(id);
    var i := FindSeparator(s).value;
    assert SeparatorAt(s, 5);
    assert i == 5;
    assert s[8..] == "- face";
    assert NoSeparator("- face");
  }

  // ---------------------------------------------------------------------
  // Adding a page
  // ---------------------------------------------------------------------

  /** `AddNewPage`'s submit button: disabled when the typed name is empty and
      the empty name is not among the loaded page names (an unloaded list
      counts as not containing it). */
  function SubmitDisabled(name: string, pageNames: Option<seq<string>>): (disabled: bool)
    ensures name != "" ==> !disabled
    ensures disabled <==> name == "" && !(pageNames.Some? && "" in pageNames.value)
  {
    var includes := pageNames.Some? && name in pageNames.value;
    name == "" && !includes
  }

  /** The "Page name already exists" toast on typing a name. */
  predicate NameWarning(name: string, pageNames: Option<seq<string>>)
  {
    pageNames.Some? && name in pageNames.value
  }

  /** With the loaded list of page names, the toast appears exactly when
      adding the page would replace a stored one. */
  lemma NameWarningMeansOverwrite(c: Controller, names: seq<string>, name: string)
    requires forall n :: n in names <==> n in c.pages
    ensures NameWarning(name, Some(names)) <==> GetPage(c, name).Some?
    ensures NameWarning(name, Some(names)) <==> AddPage(c, name).pages.Keys == c.pages.Keys
  {
  }

  /** A duplicate name is only warned about: submit stays enabled. */
  lemma DuplicateNameSubmittable(name: string, names: seq<string>)
    requires name != "" && name in names
    ensures NameWarning(name, Some(names)) && !SubmitDisabled(name, Some(names))
  {
  }

  /** The guard the toast suggests was meant: submit is disabled for an
      empty name and for the name of a page that already exists. */
  function SubmitDisabledIntended(name: string, pageNames: Option<seq<string>>): (disabled: bool)
    ensures name == "" ==> disabled
    ensures NameWarning(name, pageNames) ==> disabled
    ensures !disabled ==> name != "" && (pageNames.Some? ==> name !in pageNames.value)
  {
    name == "" || (pageNames.Some? && name in pageNames.value)
  }

  /** With the intended guard and the loaded list of page names, a submitted
      page is new: every existing page, bindings included, survives. */
  lemma SubmitGuardKeepsPages(c: Controller, names: seq<string>, name: string)
    requires forall n :: n in names <==> n in c.pages
    requires !SubmitDisabledIntended(name, Some(names))
    ensures name !in c.pages && name != ""
    ensures forall n :: n in c.pages ==> GetPage(AddPage(c, name), n) == GetPage(c, n)
    ensures AddPage(c, name).pages.Keys == c.pages.Keys + {name}
  {
  }

  /** `onAdd`: store a page of that name with no bindings. */
  function AddPage(c: Controller, name: string): (r: Controller)
    ensures GetPage(r, name) == Some(PageConfig(name, map[]))
    ensures forall n :: n != name ==> GetPage(r, n) == GetPage(c, n)
  {
    SetPage(c, PageConfig(name, map[]))
  }

  /** Submitting the name of an existing page replaces it with an empty
      page: its bindings are lost. */
  lemma AddPageDropsBindings(c: Controller, name: string, loc: KeyLocation)
    requires name in c.pages && loc in c.pages[name].screen
    ensures loc !in GetPage(AddPage(c, name), name).value.screen
  {
  }
}
