/**
  The navigation logic of the directory page `src/pages/IndoorDirectory.jsx`: resolving
  what the visitor typed to a room, naming the rooms of the floor plan (a name derived
  from the element id when the plan has none, made unique per room), checking which
  nodes the start node can reach when the search fails, and the list of points the route
  is drawn through.

  The floor plan itself is not read here: the room element ids, the labels found in the
  plan and the ids of all its elements are parameters.
*/
module IndoorDirectory {
  import opened Wrappers
  import opened JsText
  import opened NavModel

  // ---------------------------------------------------------------------------------------
  // Resolving typed input to a room
  // ---------------------------------------------------------------------------------------

  /** `{ id, name }` of a resolved room. */
  datatype Resolved = Resolved(id: string, name: string)

  /** `Object.keys(nameToId)`: exactly the keys of the map, in some order. */
  predicate IsKeyOrder(keys: seq<string>, nameToId: map<string, string>) {
    && (forall key :: key in nameToId ==> key in keys)
    && (forall k :: 0 <= k < |keys| ==> keys[k] in nameToId)
  }

  /** The first index from `i` on whose lower-cased entry is `lower`, or `|xs|`. */
  function FindLower(xs: seq<string>, lower: string, i: nat): (r: nat)
    requires i <= |xs|
    ensures i <= r <= |xs|
    ensures r < |xs| ==> ToLower(xs[r]) == lower
    ensures forall k :: i <= k < r ==> ToLower(xs[k]) != lower
    decreases |xs| - i
  {
    if i == |xs| || ToLower(xs[i]) == lower then i else FindLower(xs, lower, i + 1)
  }

  /** The first index from `i` on whose lower-cased entry includes `lower`, or `|xs|`. */
  function FindIncluding(xs: seq<string>, lower: string, i: nat): (r: nat)
    requires i <= |xs|
    ensures i <= r <= |xs|
    ensures r < |xs| ==> Includes(ToLower(xs[r]), lower)
    ensures forall k :: i <= k < r ==> !Includes(ToLower(xs[k]), lower)
    decreases |xs| - i
  {
    if i == |xs| || Includes(ToLower(xs[i]), lower) then i else FindIncluding(xs, lower, i + 1)
  }

  /** The id tried last: `room_` followed by the input in upper case. */
  function RoomCandidate(input: string): string {
    "room_" + ToUpper(input)
  }

  /** Every string includes itself. */
  lemma IncludesSelf(s: string)
    ensures Includes(s, s)
  {
    assert s[..|s|] == s;
  }

  /**
    `resolveRoomInput(input)`: `None` is `{ id: null, name: null }`. `keys` is the key
    order of `nameToId`, `rooms` the room element ids and `elementIds` the ids of all
    elements of the floor plan (empty when no plan is shown).

    A result names a display name that includes the input (case-insensitively) with its
    id, or a room id equal to the input up to case, or the existing element
    `room_<INPUT>`; there is no result exactly when the input is empty or none of these
    exists.
  */
  function ResolveRoomInput(input: string, nameToId: map<string, string>, keys: seq<string>, rooms: seq<string>, elementIds: set<string>): (r: Option<Resolved>)
    requires IsKeyOrder(keys, nameToId)
    ensures input == "" ==> r.None?
    ensures r.Some? ==>
      || (r.value.name in nameToId && r.value.id == nameToId[r.value.name] && Includes(ToLower(r.value.name), ToLower(input)))
      || (r.value.id == r.value.name && r.value.id in rooms && ToLower(r.value.id) == ToLower(input))
      || (r.value.id == r.value.name == RoomCandidate(input) && r.value.id in elementIds)
    ensures r.None? <==>
      || input == ""
      || (&& (forall key :: key in nameToId ==> !Includes(ToLower(key), ToLower(input)))
          && (forall rid :: rid in rooms ==> ToLower(rid) != ToLower(input))
          && RoomCandidate(input) !in elementIds)
  {
    if input == "" then None
    else if input in nameToId && nameToId[input] != "" then
      IncludesSelf(ToLower(input));
      Some(Resolved(nameToId[input], input))
    else
      var lower := ToLower(input);
      var a := FindLower(keys, lower, 0);
      if a < |keys| then
        IncludesSelf(lower);
        Some(Resolved(nameToId[keys[a]], keys[a]))
      else
        var b := FindIncluding(keys, lower, 0);
        if b < |keys| then Some(Resolved(nameToId[keys[b]], keys[b]))
        else
          var c := FindLower(rooms, lower, 0);
          if c < |rooms| then Some(Resolved(rooms[c], rooms[c]))
          else if RoomCandidate(input) in elementIds then Some(Resolved(RoomCandidate(input), RoomCandidate(input)))
          else None
  }

  /** First tier: a display name typed exactly, whose id is set, wins. */
  lemma ResolveExact(input: string, nameToId: map<string, string>, keys: seq<string>, rooms: seq<string>, elementIds: set<string>)
    requires IsKeyOrder(keys, nameToId)
    requires input != "" && input in nameToId && nameToId[input] != ""
    ensures ResolveRoomInput(input, nameToId, keys, rooms, elementIds) == Some(Resolved(nameToId[input], input))
  {
  }

  /** Second tier: otherwise the first display name, in key order, equal to the input up to case. */
  lemma ResolveIgnoringCase(input: string, nameToId: map<string, string>, keys: seq<string>, rooms: seq<string>, elementIds: set<string>, j: nat)
    requires IsKeyOrder(keys, nameToId)
    requires input != "" && !(input in nameToId && nameToId[input] != "")
    requires j < |keys| && ToLower(keys[j]) == ToLower(input)
    requires forall k :: 0 <= k < j ==> ToLower(keys[k]) != ToLower(input)
    ensures ResolveRoomInput(input, nameToId, keys, rooms, elementIds) == Some(Resolved(nameToId[keys[j]], keys[j]))
  {
    assert FindLower(keys, ToLower(input), 0) == j;
  }

  /** Third tier: otherwise the first display name, in key order, that includes the input up to case. */
  lemma ResolvePartial(input: string, nameToId: map<string, string>, keys: seq<string>, rooms: seq<string>, elementIds: set<string>, j: nat)
    requires IsKeyOrder(keys, nameToId)
    requires input != "" && !(input in nameToId && nameToId[input] != "")
    requires forall k :: 0 <= k < |keys| ==> ToLower(keys[k]) != ToLower(input)
    requires j < |keys| && Includes(ToLower(keys[j]), ToLower(input))
    requires forall k :: 0 <= k < j ==> !Includes(ToLower(keys[k]), ToLower(input))
    ensures ResolveRoomInput(input, nameToId, keys, rooms, elementIds) == Some(Resolved(nameToId[keys[j]], keys[j]))
  {
    assert FindLower(keys, ToLower(input), 0) == |keys|;
    assert FindIncluding(keys, ToLower(input), 0) == j;
  }

  /** Fourth tier: otherwise the first room id equal to the input up to case, as both id and name. */
  lemma ResolveRoomId(input: string, nameToId: map<string, string>, keys: seq<string>, rooms: seq<string>, elementIds: set<string>, j: nat)
    requires IsKeyOrder(keys, nameToId)
    requires input != ""
    requires forall key :: key in nameToId ==> !Includes(ToLower(key), ToLower(input))
    requires j < |rooms| && ToLower(rooms[j]) == ToLower(input)
    requires forall k :: 0 <= k < j ==> ToLower(rooms[k]) != ToLower(input)
    ensures ResolveRoomInput(input, nameToId, keys, rooms, elementIds) == Some(Resolved(rooms[j], rooms[j]))
  {
    var lower := ToLower(input);
    if input in nameToId {
      IncludesSelf(lower);
      assert false;
    }
    assert forall k :: 0 <= k < |keys| ==> keys[k] in nameToId;
    assert FindLower(keys, lower, 0) == |keys| by {
      forall k | 0 <= k < |keys|
        ensures ToLower(keys[k]) != lower
      {
        if ToLower(keys[k]) == lower {
          IncludesSelf(lower);
        }
      }
    }
    assert FindIncluding(keys, lower, 0) == |keys|;
    assert FindLower(rooms, lower, 0) == j;
  }

  /** Last tier: otherwise `room_` and the upper-cased input, when the plan has an element with that id. */
  lemma ResolveCandidate(input: string, nameToId: map<string, string>, keys: seq<string>, rooms: seq<string>, elementIds: set<string>)
    requires IsKeyOrder(keys, nameToId)
    requires input != ""
    requires forall key :: key in nameToId ==> !Includes(ToLower(key), ToLower(input))
    requires forall k :: 0 <= k < |rooms| ==> ToLower(rooms[k]) != ToLower(input)
    requires RoomCandidate(input) in elementIds
    ensures ResolveRoomInput(input, nameToId, keys, rooms, elementIds) == Some(Resolved(RoomCandidate(input), RoomCandidate(input)))
  {
    var r := ResolveRoomInput(input, nameToId, keys, rooms, elementIds);
    assert r.Some?;
    if input in nameToId {
      IncludesSelf(ToLower(input));
      assert false;
    }
    assert forall k :: 0 <= k < |keys| ==> keys[k] in nameToId;
  }

  // ---------------------------------------------------------------------------------------
  // The name derived from a room's element id
  // ---------------------------------------------------------------------------------------

  /** The id prefixes of the room elements, in the order the pattern lists them. */
  const RoomPrefixes: seq<string> := ["room_", "office_", "toilet_", "surau_", "cafe_", "stair_"]

  /** `id.replace(/^(room_|office_|toilet_|surau_|cafe_|stair_)/i, '')` */
  function StripPrefix(id: string): (r: string)
    ensures (exists p :: p in RoomPrefixes && StartsWith(ToLower(id), p)) ==> |r| < |id| && r == id[|id| - |r|..]
    ensures (forall p :: p in RoomPrefixes ==> !StartsWith(ToLower(id), p)) ==> r == id
  {
    StripFirst(id, RoomPrefixes)
  }

  function StripFirst(id: string, prefixes: seq<string>): (r: string)
    requires forall k :: 0 <= k < |prefixes| ==> |prefixes[k]| > 0
    ensures (exists p :: p in prefixes && StartsWith(ToLower(id), p)) ==> |r| < |id| && r == id[|id| - |r|..]
    ensures (forall p :: p in prefixes ==> !StartsWith(ToLower(id), p)) ==> r == id
  {
    if prefixes == [] then id
    else if StartsWith(ToLower(id), prefixes[0]) then id[|prefixes[0]|..]
    else
      var r := StripFirst(id, prefixes[1..]);
      assert forall p :: p in prefixes && p != prefixes[0] ==> p in prefixes[1..];
      r
  }

  /** `s.replace(/([A-Z])/g, ' $1')`: a space before every capital letter. */
  function SpaceCapitals(s: string): string {
    if s == [] then []
    else (if IsUpperAscii(s[0]) then [' ', s[0]] else [s[0]]) + SpaceCapitals(s[1..])
  }

  /** Method 5 of the name lookup: the id without its room prefix, words split before capitals and at `_`, trimmed. */
  function FallbackName(id: string): (name: string)
    ensures '_' !in name
    ensures name == [] || (!IsSpace(name[0]) && !IsSpace(name[|name| - 1]))
    ensures forall k :: 0 < k < |name| && IsUpperAscii(name[k]) ==> name[k - 1] == ' '
  {
    FallbackShape(StripPrefix(id));
    Trim(ReplaceChar(SpaceCapitals(StripPrefix(id)), '_', ' '))
  }

  lemma FallbackShape(s: string)
    ensures var name := Trim(ReplaceChar(SpaceCapitals(s), '_', ' '));
      && '_' !in name
      && forall k :: 0 < k < |name| && IsUpperAscii(name[k]) ==> name[k - 1] == ' '
  {
    CapitalsSpaced(s);
    ReplaceKeepsSpacing(SpaceCapitals(s));
    TrimKeepsSpacing(ReplaceChar(SpaceCapitals(s), '_', ' '), Trim(ReplaceChar(SpaceCapitals(s), '_', ' ')));
  }

  /** Every capital letter comes right after a space (so none is first). */
  predicate CapitalsAfterSpace(r: string) {
    forall k :: 0 <= k < |r| && IsUpperAscii(r[k]) ==> k > 0 && r[k - 1] == ' '
  }

  /** In `SpaceCapitals(s)` every capital letter comes right after a space. */
  lemma {:induction false} CapitalsSpaced(s: string)
    ensures CapitalsAfterSpace(SpaceCapitals(s))
  {
    if s != [] {
      CapitalsSpaced(s[1..]);
      var head := if IsUpperAscii(s[0]) then [' ', s[0]] else [s[0]];
      var rest := SpaceCapitals(s[1..]);
      var r := SpaceCapitals(s);
      assert r == head + rest;
      forall k | 0 <= k < |r| && IsUpperAscii(r[k])
        ensures k > 0 && r[k - 1] == ' '
      {
        if k < |head| {
          assert r[k] == head[k];
          if IsUpperAscii(s[0]) {
            assert r[0] == ' ';
          }
        } else {
          var m := k - |head|;
          assert r[k] == rest[m];
          assert IsUpperAscii(rest[m]);
          assert m > 0 && rest[m - 1] == ' ';
          assert r[k - 1] == rest[m - 1];
        }
      }
    }
  }

  /** Replacing `_` by a space keeps every capital after a space, and leaves no `_`. */
  lemma ReplaceKeepsSpacing(s: string)
    requires CapitalsAfterSpace(s)
    ensures '_' !in ReplaceChar(s, '_', ' ') && CapitalsAfterSpace(ReplaceChar(s, '_', ' '))
  {
    var r := ReplaceChar(s, '_', ' ');
    forall k | 0 <= k < |r| && IsUpperAscii(r[k])
      ensures k > 0 && r[k - 1] == ' '
    {
      assert r[k] == s[k];
    }
  }

  /** Trimming keeps "every capital after a space" except for a capital that becomes the first character. */
  lemma TrimKeepsSpacing(s: string, t: string)
    requires t == Trim(s)
    requires CapitalsAfterSpace(s)
    requires '_' !in s
    ensures '_' !in t
    ensures forall k :: 0 < k < |t| && IsUpperAscii(t[k]) ==> t[k - 1] == ' '
  {
    var i: nat :| IsTrimmedSlice(s, t, i);
    forall k | 0 < k < |t| && IsUpperAscii(t[k])
      ensures t[k - 1] == ' '
    {
      assert t[k] == s[i + k] && t[k - 1] == s[i + k - 1];
    }
    forall k | 0 <= k < |t|
      ensures t[k] != '_'
    {
      assert t[k] == s[i + k];
    }
  }

  /** The text of a name without its separators: white space and `_` dropped. */
  function Letters(s: string): string {
    if s == [] then [] else (if IsSpace(s[0]) || s[0] == '_' then [] else [s[0]]) + Letters(s[1..])
  }

  lemma {:induction false} LettersAppend(a: string, b: string)
    ensures Letters(a + b) == Letters(a) + Letters(b)
    decreases |a|
  {
    if a != [] {
      LettersAppend(a[1..], b);
      assert (a + b)[1..] == a[1..] + b;
    } else {
      assert a + b == b;
    }
  }

  lemma {:induction false} LettersOfSpaces(s: string)
    requires forall k :: 0 <= k < |s| ==> IsSpace(s[k])
    ensures Letters(s) == []
    decreases |s|
  {
    if s != [] {
      LettersOfSpaces(s[1..]);
    }
  }

  lemma {:induction false} LettersSpaceCapitals(s: string)
    ensures Letters(SpaceCapitals(s)) == Letters(s)
    decreases |s|
  {
    if s != [] {
      LettersSpaceCapitals(s[1..]);
      var head := if IsUpperAscii(s[0]) then [' ', s[0]] else [s[0]];
      LettersAppend(head, SpaceCapitals(s[1..]));
      LettersAppend([s[0]], s[1..]);
      assert [s[0]] + s[1..] == s;
      if IsUpperAscii(s[0]) {
        assert head[1..] == [s[0]];
      }
    }
  }

  lemma {:induction false} LettersReplace(s: string)
    ensures Letters(ReplaceChar(s, '_', ' ')) == Letters(s)
    decreases |s|
  {
    if s != [] {
      LettersReplace(s[1..]);
      assert ReplaceChar(s, '_', ' ')[1..] == ReplaceChar(s[1..], '_', ' ');
    }
  }

  lemma LettersTrim(s: string)
    ensures Letters(Trim(s)) == Letters(s)
  {
    var t := Trim(s);
    var i: nat :| IsTrimmedSlice(s, t, i);
    LettersTrimmedSlice(s, t, i);
  }

  lemma LettersTrimmedSlice(s: string, t: string, i: nat)
    requires IsTrimmedSlice(s, t, i)
    ensures Letters(t) == Letters(s)
  {
    var j := i + |t|;
    var front, back := s[..i], s[j..];
    ThreeSlices(s, i, j);
    assert forall k :: 0 <= k < |front| ==> front[k] == s[k];
    assert forall k :: 0 <= k < |back| ==> back[k] == s[j + k];
    LettersAppend(front + t, back);
    LettersAppend(front, t);
    LettersOfSpaces(front);
    LettersOfSpaces(back);
  }

  lemma ThreeSlices(s: string, i: nat, j: nat)
    requires i <= j <= |s|
    ensures s == s[..i] + s[i..j] + s[j..]
  {
  }

  /**
    The derived name keeps the text of the id: apart from white space and `_`, it is the
    id without its room prefix, character for character.
  */
  lemma FallbackNameKeepsText(id: string)
    ensures Letters(FallbackName(id)) == Letters(StripPrefix(id))
  {
    var s := StripPrefix(id);
    LettersSpaceCapitals(s);
    LettersReplace(SpaceCapitals(s));
    LettersTrim(ReplaceChar(SpaceCapitals(s), '_', ' '));
  }

  // ---------------------------------------------------------------------------------------
  // Unique display names
  // ---------------------------------------------------------------------------------------

  function DigitChar(d: nat): char
    requires d < 10
  {
    ('0' as int + d) as char
  }

  /** The decimal text of a whole number, as a template literal writes it. */
  function NatToString(n: nat): (s: string)
    ensures |s| > 0
    ensures forall k :: 0 <= k < |s| ==> '0' <= s[k] <= '9'
    ensures n >= 10 ==> |s| >= 2
  {
    if n < 10 then [DigitChar(n)] else NatToString(n / 10) + [DigitChar(n % 10)]
  }

  lemma {:induction false} NatToStringInjective(a: nat, b: nat)
    requires NatToString(a) == NatToString(b)
    ensures a == b
    decreases a
  {
    var s := NatToString(a);
    if a >= 10 && b >= 10 {
      assert s[|s| - 1] == DigitChar(a % 10) && s[|s| - 1] == DigitChar(b % 10);
      assert NatToString(a / 10) == s[..|s| - 1] == NatToString(b / 10);
      NatToStringInjective(a / 10, b / 10);
    }
  }

  /** The `i`-th display name tried for a label: the label itself, then `name (2)`, `name (3)`, … */
  function DisplayAt(name: string, i: nat): string
    requires i >= 1
  {
    if i == 1 then name else name + " (" + NatToString(i) + ")"
  }

  /** Different attempts give different display names. */
  lemma DisplayInjective(name: string, i: nat, j: nat)
    requires i >= 1 && j >= 1 && DisplayAt(name, i) == DisplayAt(name, j)
    ensures i == j
  {
    if i > 1 && j > 1 {
      var a, b := NatToString(i), NatToString(j);
      var d := DisplayAt(name, i);
      assert |a| == |b|;
      assert a == d[|name| + 2..|d| - 1] == b;
      NatToStringInjective(i, j);
    }
  }

  /** `map[display] && map[display] !== gId`: the name is held by another room. */
  predicate Taken(nameToId: map<string, string>, display: string, gId: string) {
    display in nameToId && nameToId[display] != "" && nameToId[display] != gId
  }

  /** The display names tried before the `i`-th. */
  ghost function TriedBelow(name: string, i: nat): set<string>
    requires i >= 1
  {
    if i == 1 then {} else TriedBelow(name, i - 1) + {DisplayAt(name, i - 1)}
  }

  /** No attempt is tried twice: attempt `j` is not among those before `i <= j`. */
  lemma {:induction false} NotTriedYet(name: string, i: nat, j: nat)
    requires 1 <= i <= j
    ensures DisplayAt(name, j) !in TriedBelow(name, i)
  {
    if i > 1 {
      NotTriedYet(name, i - 1, j);
      if DisplayAt(name, j) == DisplayAt(name, i - 1) {
        DisplayInjective(name, j, i - 1);
      }
    }
  }

  /** Every attempt before the `i`-th is held by another room. */
  ghost predicate AllTaken(nameToId: map<string, string>, name: string, gId: string, i: nat)
    requires i >= 1
  {
    i == 1 || (AllTaken(nameToId, name, gId, i - 1) && Taken(nameToId, DisplayAt(name, i - 1), gId))
  }

  lemma {:induction false} AllTakenBelow(nameToId: map<string, string>, name: string, gId: string, i: nat)
    requires i >= 1 && AllTaken(nameToId, name, gId, i)
    ensures forall j :: 1 <= j < i ==> Taken(nameToId, DisplayAt(name, j), gId)
  {
    if i > 1 {
      AllTakenBelow(nameToId, name, gId, i - 1);
    }
  }

  /** Marking one more held name as tried leaves fewer held names untried. */
  lemma FewerUntried(held: set<string>, tried: set<string>, d: string)
    requires d in held && d !in tried
    ensures |held - (tried + {d})| < |held - tried|
  {
    assert held - (tried + {d}) == (held - tried) - {d};
  }

  /**
    The `while` loop of the name de-duplication: the first of `name`, `name (2)`, … that no
    other room holds. Every earlier attempt is held by another room.
  */
  method UniqueDisplay(nameToId: map<string, string>, name: string, gId: string) returns (display: string, i: nat)
    ensures i >= 1 && display == DisplayAt(name, i)
    ensures !Taken(nameToId, display, gId)
    ensures forall j :: 1 <= j < i ==> Taken(nameToId, DisplayAt(name, j), gId)
  {
    display := name;
    i := 1;
    ghost var tried: set<string> := {};
    while display in nameToId && nameToId[display] != "" && nameToId[display] != gId
      invariant i >= 1 && display == DisplayAt(name, i)
      invariant tried == TriedBelow(name, i) && tried <= nameToId.Keys
      invariant AllTaken(nameToId, name, gId, i)
      decreases |nameToId.Keys - tried|
    {
      assert Taken(nameToId, DisplayAt(name, i), gId);
      NotTriedYet(name, i, i);
      FewerUntried(nameToId.Keys, tried, display);
      assert tried + {display} <= nameToId.Keys;
      tried := tried + {display};
      i := i + 1;
      display := name + " (" + NatToString(i) + ")";
    }
    AllTakenBelow(nameToId, name, gId, i);
  }

  /** Each of the first `n` rooms' display names maps back to that room's id. */
  predicate MapsBack(rooms: seq<(string, string)>, n: nat, names: seq<string>, nameToId: map<string, string>)
    requires n <= |rooms|
  {
    |names| == n && forall k :: 0 <= k < n ==> names[k] in nameToId && nameToId[names[k]] == rooms[k].0
  }

  /** The keys of `nameToId` are exactly the display names pushed. */
  predicate KeysAreNames(names: seq<string>, nameToId: map<string, string>) {
    (forall d :: d in nameToId ==> d in names) && (forall k :: 0 <= k < |names| ==> names[k] in nameToId)
  }

  /** Each display name starts with its room's label. */
  predicate Labelled(rooms: seq<(string, string)>, n: nat, names: seq<string>)
    requires n <= |rooms| && |names| == n
  {
    forall k :: 0 <= k < n ==> StartsWith(names[k], rooms[k].1)
  }

  /** `idToName` sends an id to a display name that `nameToId` sends back to it. */
  predicate IdsMapBack(idToName: map<string, string>, nameToId: map<string, string>) {
    forall g :: g in idToName ==> idToName[g] in nameToId && nameToId[idToName[g]] == g
  }

  /** The id of room `k` does not occur again among the first `n` rooms. */
  predicate OnlyLater(rooms: seq<(string, string)>, k: nat, n: nat)
    requires k < n <= |rooms|
  {
    forall l :: k < l < n ==> rooms[l].0 != rooms[k].0
  }

  /** A room whose id does not occur again among the first `n` is shown under its own display name. */
  predicate LastShown(rooms: seq<(string, string)>, n: nat, names: seq<string>, idToName: map<string, string>)
    requires n <= |rooms| && |names| == n
  {
    forall k :: 0 <= k < n && OnlyLater(rooms, k, n) ==> rooms[k].0 in idToName && idToName[rooms[k].0] == names[k]
  }

  lemma LastShownStep(rooms: seq<(string, string)>, n: nat, names: seq<string>, idToName: map<string, string>, display: string)
    requires n < |rooms| && |names| == n && LastShown(rooms, n, names, idToName)
    ensures LastShown(rooms, n + 1, names + [display], idToName[rooms[n].0 := display])
  {
    var names' := names + [display];
    var idToName' := idToName[rooms[n].0 := display];
    forall k | 0 <= k < n + 1 && OnlyLater(rooms, k, n + 1)
      ensures rooms[k].0 in idToName' && idToName'[rooms[k].0] == names'[k]
    {
      if k < n {
        assert rooms[n].0 != rooms[k].0;
        assert OnlyLater(rooms, k, n);
        assert idToName[rooms[k].0] == names[k];
        assert names'[k] == names[k];
      }
    }
  }

  /** Pushing a display name that is free for `gId`, or already `gId`'s, keeps every earlier room's name mapped back. */
  lemma MapsBackStep(rooms: seq<(string, string)>, n: nat, names: seq<string>, nameToId: map<string, string>, display: string)
    requires n < |rooms| && MapsBack(rooms, n, names, nameToId) && KeysAreNames(names, nameToId)
    requires forall k :: 0 <= k < |rooms| ==> rooms[k].0 != ""
    requires !Taken(nameToId, display, rooms[n].0)
    ensures MapsBack(rooms, n + 1, names + [display], nameToId[display := rooms[n].0])
    ensures KeysAreNames(names + [display], nameToId[display := rooms[n].0])
  {
    var gId := rooms[n].0;
    if display in nameToId {
      var k :| 0 <= k < n && names[k] == display;
      assert nameToId[display] == rooms[k].0 != "";
    }
    var names' := names + [display];
    assert forall k :: 0 <= k < n ==> names'[k] == names[k];
  }

  /** A display name that is not taken for the room is free or already the room's. */
  lemma HeldByItself(rooms: seq<(string, string)>, n: nat, names: seq<string>, nameToId: map<string, string>, display: string)
    requires n < |rooms| && MapsBack(rooms, n, names, nameToId) && KeysAreNames(names, nameToId)
    requires forall k :: 0 <= k < |rooms| ==> rooms[k].0 != ""
    requires !Taken(nameToId, display, rooms[n].0)
    ensures display in nameToId ==> nameToId[display] == rooms[n].0
  {
    if display in nameToId {
      var k :| 0 <= k < n && names[k] == display;
    }
  }

  lemma IdsMapBackStep(idToName: map<string, string>, nameToId: map<string, string>, display: string, gId: string)
    requires IdsMapBack(idToName, nameToId)
    requires display in nameToId ==> nameToId[display] == gId
    ensures IdsMapBack(idToName[gId := display], nameToId[display := gId])
  {
  }

  /** What the loop keeps after `n` rooms. */
  predicate Named(rooms: seq<(string, string)>, n: nat, names: seq<string>, nameToId: map<string, string>, idToName: map<string, string>)
    requires n <= |rooms|
  {
    && MapsBack(rooms, n, names, nameToId) && KeysAreNames(names, nameToId)
    && Labelled(rooms, n, names) && IdsMapBack(idToName, nameToId) && LastShown(rooms, n, names, idToName)
  }

  /** One pass of the loop body keeps `Named`. */
  lemma NamedStep(rooms: seq<(string, string)>, n: nat, names: seq<string>, nameToId: map<string, string>, idToName: map<string, string>,
                  display: string, i: nat)
    requires n < |rooms| && Named(rooms, n, names, nameToId, idToName)
    requires forall k :: 0 <= k < |rooms| ==> rooms[k].0 != ""
    requires i >= 1 && display == DisplayAt(rooms[n].1, i) && !Taken(nameToId, display, rooms[n].0)
    ensures Named(rooms, n + 1, names + [display], nameToId[display := rooms[n].0], idToName[rooms[n].0 := display])
  {
    var (gId, name) := rooms[n];
    MapsBackStep(rooms, n, names, nameToId, display);
    HeldByItself(rooms, n, names, nameToId, display);
    IdsMapBackStep(idToName, nameToId, display, gId);
    LastShownStep(rooms, n, names, idToName, display);
    DisplayStartsWithLabel(name, i);
    LabelledStep(rooms, n, names, display);
  }

  /** Every attempt starts with the label. */
  lemma DisplayStartsWithLabel(name: string, i: nat)
    requires i >= 1
    ensures StartsWith(DisplayAt(name, i), name)
  {
    if i > 1 {
      assert DisplayAt(name, i)[..|name|] == name;
    }
  }

  lemma LabelledStep(rooms: seq<(string, string)>, n: nat, names: seq<string>, display: string)
    requires n < |rooms| && |names| == n && Labelled(rooms, n, names)
    requires StartsWith(display, rooms[n].1)
    ensures Labelled(rooms, n + 1, names + [display])
  {
    assert forall k :: 0 <= k < n ==> (names + [display])[k] == names[k];
  }

  /** What `Named` says once every room is done. */
  lemma NamedMeans(rooms: seq<(string, string)>, names: seq<string>, nameToId: map<string, string>, idToName: map<string, string>)
    requires Named(rooms, |rooms|, names, nameToId, idToName)
    ensures |names| == |rooms|
    ensures forall k, l :: 0 <= k < |rooms| && 0 <= l < |rooms| && rooms[k].0 != rooms[l].0 ==> names[k] != names[l]
    ensures forall k :: 0 <= k < |rooms| && (forall l :: k < l < |rooms| ==> rooms[l].0 != rooms[k].0) ==>
      rooms[k].0 in idToName && idToName[rooms[k].0] == names[k]
  {
    forall k | 0 <= k < |rooms| && (forall l :: k < l < |rooms| ==> rooms[l].0 != rooms[k].0)
      ensures rooms[k].0 in idToName && idToName[rooms[k].0] == names[k]
    {
      assert OnlyLater(rooms, k, |rooms|);
    }
  }

  /** Display name `d` is held, when room `k` is named, by one of the earlier rooms with another id. */
  ghost predicate HeldBefore(rooms: seq<(string, string)>, names: seq<string>, k: nat, d: string)
    requires k < |rooms| && k <= |names|
  {
    exists l :: 0 <= l < k && names[l] == d && rooms[l].0 != rooms[k].0
  }

  /**
    Room `k`'s display name is the first of its label, `label (2)`, `label (3)`, … that no
    earlier room with another id holds.
  */
  ghost predicate FirstFree(rooms: seq<(string, string)>, names: seq<string>, k: nat)
    requires k < |rooms| && k < |names|
  {
    exists i :: i >= 1 && names[k] == DisplayAt(rooms[k].1, i) && !HeldBefore(rooms, names, k, names[k])
      && forall j :: 1 <= j < i ==> HeldBefore(rooms, names, k, DisplayAt(rooms[k].1, j))
  }

  /** Each of the first `n` rooms got the first free attempt. */
  ghost predicate Chosen(rooms: seq<(string, string)>, n: nat, names: seq<string>)
    requires n <= |rooms| && n <= |names|
  {
    forall k :: 0 <= k < n ==> FirstFree(rooms, names, k)
  }

  /** While room `n` is named, `map[display] && map[display] !== gId` holds exactly for names held by earlier rooms with another id. */
  lemma TakenIsHeld(rooms: seq<(string, string)>, n: nat, names: seq<string>, nameToId: map<string, string>, d: string)
    requires n < |rooms| && MapsBack(rooms, n, names, nameToId) && KeysAreNames(names, nameToId)
    requires forall k :: 0 <= k < |rooms| ==> rooms[k].0 != ""
    ensures Taken(nameToId, d, rooms[n].0) <==> HeldBefore(rooms, names, n, d)
  {
    if Taken(nameToId, d, rooms[n].0) {
      var l :| 0 <= l < n && names[l] == d;
      assert rooms[l].0 == nameToId[d];
    }
    if HeldBefore(rooms, names, n, d) {
      var l :| 0 <= l < n && names[l] == d && rooms[l].0 != rooms[n].0;
      assert nameToId[d] == rooms[l].0;
    }
  }

  /** Appending a name does not change what was held when an earlier room was named. */
  lemma HeldBeforeAppend(rooms: seq<(string, string)>, names: seq<string>, display: string, k: nat, d: string)
    requires k < |rooms| && k <= |names|
    ensures HeldBefore(rooms, names + [display], k, d) == HeldBefore(rooms, names, k, d)
  {
    assert forall l :: 0 <= l < k ==> (names + [display])[l] == names[l];
  }

  /** Pushing the first free attempt for room `n` keeps `Chosen`. */
  lemma ChosenStep(rooms: seq<(string, string)>, n: nat, names: seq<string>, nameToId: map<string, string>, display: string, i: nat)
    requires n < |rooms| && MapsBack(rooms, n, names, nameToId) && KeysAreNames(names, nameToId) && Chosen(rooms, n, names)
    requires forall k :: 0 <= k < |rooms| ==> rooms[k].0 != ""
    requires i >= 1 && display == DisplayAt(rooms[n].1, i) && !Taken(nameToId, display, rooms[n].0)
    requires forall j :: 1 <= j < i ==> Taken(nameToId, DisplayAt(rooms[n].1, j), rooms[n].0)
    ensures Chosen(rooms, n + 1, names + [display])
  {
    var names' := names + [display];
    forall k | 0 <= k < n
      ensures FirstFree(rooms, names', k)
    {
      assert FirstFree(rooms, names, k);
      var i' :| i' >= 1 && names[k] == DisplayAt(rooms[k].1, i') && !HeldBefore(rooms, names, k, names[k])
        && forall j :: 1 <= j < i' ==> HeldBefore(rooms, names, k, DisplayAt(rooms[k].1, j));
      HeldBeforeAppend(rooms, names, display, k, names[k]);
      forall j | 1 <= j < i'
        ensures HeldBefore(rooms, names', k, DisplayAt(rooms[k].1, j))
      {
        HeldBeforeAppend(rooms, names, display, k, DisplayAt(rooms[k].1, j));
      }
      assert names'[k] == names[k];
    }
    TakenIsHeld(rooms, n, names, nameToId, display);
    HeldBeforeAppend(rooms, names, display, n, display);
    forall j | 1 <= j < i
      ensures HeldBefore(rooms, names', n, DisplayAt(rooms[n].1, j))
    {
      TakenIsHeld(rooms, n, names, nameToId, DisplayAt(rooms[n].1, j));
      HeldBeforeAppend(rooms, names, display, n, DisplayAt(rooms[n].1, j));
    }
    assert names'[n] == display;
    assert FirstFree(rooms, names', n);
  }

  /** A room whose label no earlier room with another id holds is shown under the bare label. */
  lemma FreeLabelKept(rooms: seq<(string, string)>, names: seq<string>, k: nat)
    requires k < |rooms| && k < |names| && FirstFree(rooms, names, k)
    requires !HeldBefore(rooms, names, k, rooms[k].1)
    ensures names[k] == rooms[k].1
  {
    var i :| i >= 1 && names[k] == DisplayAt(rooms[k].1, i) && !HeldBefore(rooms, names, k, names[k])
      && forall j :: 1 <= j < i ==> HeldBefore(rooms, names, k, DisplayAt(rooms[k].1, j));
    assert DisplayAt(rooms[k].1, 1) == rooms[k].1;
  }

  /** What `Chosen` says once every room is done. */
  lemma ChosenMeans(rooms: seq<(string, string)>, names: seq<string>)
    requires |names| == |rooms| && Chosen(rooms, |rooms|, names)
    ensures forall k :: 0 <= k < |rooms| ==> FirstFree(rooms, names, k)
    ensures forall k :: 0 <= k < |rooms| && !HeldBefore(rooms, names, k, rooms[k].1) ==> names[k] == rooms[k].1
  {
    forall k | 0 <= k < |rooms| && !HeldBefore(rooms, names, k, rooms[k].1)
      ensures names[k] == rooms[k].1
    {
      FreeLabelKept(rooms, names, k);
    }
  }

  /**
    The loop over the room elements, `rooms` holding each element's id and the name found
    for it (ids are never empty: the elements are selected by an id prefix). It returns
    `names` before sorting, `nameToId` and `idToName`.

    Every room's display name maps back to that room's id, so different rooms get
    different display names; a room's display name is the first of its label, `label (2)`,
    `label (3)`, … that no earlier room with another id holds, so a free label is kept
    as it is; a room whose id occurs once is shown under its own display name.
  */
  method DisplayNames(rooms: seq<(string, string)>) returns (names: seq<string>, nameToId: map<string, string>, idToName: map<string, string>)
    requires forall k :: 0 <= k < |rooms| ==> rooms[k].0 != ""
    ensures |names| == |rooms|
    ensures forall k :: 0 <= k < |rooms| ==> names[k] in nameToId && nameToId[names[k]] == rooms[k].0
    ensures forall d :: d in nameToId ==> d in names
    ensures forall k, l :: 0 <= k < |rooms| && 0 <= l < |rooms| && rooms[k].0 != rooms[l].0 ==> names[k] != names[l]
    ensures forall k :: 0 <= k < |rooms| ==> StartsWith(names[k], rooms[k].1)
    ensures forall k :: 0 <= k < |rooms| ==> FirstFree(rooms, names, k)
    ensures forall k :: 0 <= k < |rooms| && !HeldBefore(rooms, names, k, rooms[k].1) ==> names[k] == rooms[k].1
    ensures forall g :: g in idToName ==> idToName[g] in nameToId && nameToId[idToName[g]] == g
    ensures forall k :: 0 <= k < |rooms| && (forall l :: k < l < |rooms| ==> rooms[l].0 != rooms[k].0) ==>
      rooms[k].0 in idToName && idToName[rooms[k].0] == names[k]
  {
    names, nameToId, idToName := [], map[], map[];
    for n := 0 to |rooms|
      invariant Named(rooms, n, names, nameToId, idToName)
      invariant Chosen(rooms, n, names)
    {
      var (gId, name) := rooms[n];
      var display, i := UniqueDisplay(nameToId, name, gId);
      NamedStep(rooms, n, names, nameToId, idToName, display, i);
      ChosenStep(rooms, n, names, nameToId, display, i);
      nameToId := nameToId[display := gId];
      idToName := idToName[gId := display];
      names := names + [display];
    }
    NamedMeans(rooms, names, nameToId, idToName);
    ChosenMeans(rooms, names);
  }

  // ---------------------------------------------------------------------------------------
  // Which nodes the start node reaches
  // ---------------------------------------------------------------------------------------

  /** `nodes[current]?.edges || []` */
  function Successors(nodes: Graph, v: string): seq<Edge> {
    if v in nodes then nodes[v].edges else []
  }

  /** Every edge out of a node of `reached` ends in `reached`. */
  ghost predicate EdgeClosed(nodes: Graph, reached: set<string>) {
    forall v, k :: v in reached && 0 <= k < |Successors(nodes, v)| ==> Successors(nodes, v)[k].to in reached
  }

  /** Every id the graph mentions, and the start. */
  function Mentioned(nodes: Graph, s: string): set<string> {
    {s} + nodes.Keys + set v, k | v in nodes && 0 <= k < |nodes[v].edges| :: nodes[v].edges[k].to
  }

  /** The ends of some edges. */
  function Targets(edges: seq<Edge>): set<string> {
    set k | 0 <= k < |edges| :: edges[k].to
  }

  lemma TargetsSnoc(edges: seq<Edge>, n: nat)
    requires n < |edges|
    ensures Targets(edges[..n + 1]) == Targets(edges[..n]) + {edges[n].to}
  {
    assert edges[..n + 1][n] == edges[n];
    assert forall k :: 0 <= k < n ==> edges[..n + 1][k] == edges[..n][k];
  }

  /** The edge ends the inner loop pushes, in edge order: each end not in `seen` nor pushed before. */
  function Fresh(edges: seq<Edge>, seen: set<string>): seq<string> {
    if |edges| == 0 then []
    else
      var before := edges[..|edges| - 1];
      var v := edges[|edges| - 1].to;
      if v in seen + Targets(before) then Fresh(before, seen) else Fresh(before, seen) + [v]
  }

  /** Putting one more element into a set adds it once to the set's multiset. */
  lemma MultisetAddOne(a: set<string>, v: string)
    requires v !in a
    ensures multiset(a + {v}) == multiset(a) + multiset{v}
  {
    assert forall x :: multiset(a + {v})[x] == (multiset(a) + multiset{v})[x];
  }

  /** The pushes are exactly the edge ends not seen before, each pushed once. */
  lemma {:induction false} FreshIsUnseenTargets(edges: seq<Edge>, seen: set<string>)
    ensures multiset(Fresh(edges, seen)) == multiset(Targets(edges) - seen)
  {
    if |edges| > 0 {
      var n := |edges| - 1;
      var before := edges[..n];
      var v := edges[n].to;
      assert edges[..n + 1] == edges;
      TargetsSnoc(edges, n);
      FreshIsUnseenTargets(before, seen);
      if v !in seen + Targets(before) {
        assert Targets(edges) - seen == (Targets(before) - seen) + {v};
        MultisetAddOne(Targets(before) - seen, v);
      } else {
        assert Targets(edges) - seen == Targets(before) - seen;
      }
    }
  }

  /**
    The inner `for (const edge of edges)`: each edge end not yet seen is marked and pushed,
    once, in edge order.
  */
  method PushUnseen(edges: seq<Edge>, connected: set<string>, toVisit: seq<string>) returns (connected': set<string>, toVisit': seq<string>)
    ensures connected' == connected + Targets(edges)
    ensures toVisit' == toVisit + Fresh(edges, connected)
  {
    connected', toVisit' := connected, toVisit;
    for j := 0 to |edges|
      invariant connected' == connected + Targets(edges[..j])
      invariant toVisit' == toVisit + Fresh(edges[..j], connected)
    {
      var v := edges[j].to;
      TargetsSnoc(edges, j);
      assert edges[..j + 1][..j] == edges[..j];
      if v !in connected' {
        connected' := connected' + {v};
        toVisit' := toVisit' + [v];
      }
    }
    assert edges[..|edges|] == edges;
  }

  /** Every edge out of a node that has been found and is no longer waiting ends in a found node. */
  ghost predicate Expanded(nodes: Graph, connected: set<string>, toVisit: seq<string>) {
    forall v, k :: v in connected && v !in toVisit && 0 <= k < |Successors(nodes, v)| ==> Successors(nodes, v)[k].to in connected
  }

  /** `connected` lies inside every edge-closed set that holds `s`. */
  ghost predicate BelowClosed(nodes: Graph, s: string, connected: set<string>) {
    forall reached :: s in reached && EdgeClosed(nodes, reached) ==> connected <= reached
  }

  lemma BelowClosedStep(nodes: Graph, s: string, connected: set<string>, current: string)
    requires BelowClosed(nodes, s, connected) && current in connected
    ensures BelowClosed(nodes, s, connected + Targets(Successors(nodes, current)))
  {
    var edges := Successors(nodes, current);
    forall reached | s in reached && EdgeClosed(nodes, reached)
      ensures connected + Targets(edges) <= reached
    {
      assert current in reached;
      forall k | 0 <= k < |edges|
        ensures edges[k].to in reached
      {
      }
    }
  }

  lemma ExpandedStep(nodes: Graph, connected: set<string>, rest: seq<string>, current: string, pushes: seq<string>)
    requires Expanded(nodes, connected, rest + [current])
    requires multiset(pushes) == multiset(Targets(Successors(nodes, current)) - connected)
    ensures Expanded(nodes, connected + Targets(Successors(nodes, current)), rest + pushes)
  {
    var connected' := connected + Targets(Successors(nodes, current));
    forall v, k | v in connected' && v !in rest + pushes && 0 <= k < |Successors(nodes, v)|
      ensures Successors(nodes, v)[k].to in connected'
    {
      if v == current {
        assert Successors(nodes, v)[k].to in Targets(Successors(nodes, v));
      } else {
        assert forall m :: 0 <= m < |rest| ==> (rest + pushes)[m] == rest[m];
        assert v !in rest + [current];
        assert v !in pushes;
        assert multiset(Targets(Successors(nodes, current)) - connected)[v] == 0;
      }
    }
  }

  /** Every id the graph mentions, and the start. */
  lemma TargetsMentioned(nodes: Graph, s: string, current: string)
    ensures Targets(Successors(nodes, current)) <= Mentioned(nodes, s)
  {
    var edges := Successors(nodes, current);
    forall k | 0 <= k < |edges|
      ensures edges[k].to in Mentioned(nodes, s)
    {
      assert current in nodes;
    }
  }

  /**
    What the search keeps: `connected` is the set `startConnected`, `toVisit` the stack, and
    every id found lies in the finite set `m`. The pushes made so far are the found ids, each once.
  */
  ghost predicate Searching(nodes: Graph, s: string, m: set<string>, connected: set<string>, toVisit: seq<string>, pushed: seq<string>) {
    && s in connected && connected <= m
    && (forall k :: 0 <= k < |toVisit| ==> toVisit[k] in connected)
    && Expanded(nodes, connected, toVisit)
    && BelowClosed(nodes, s, connected)
    && multiset(pushed) == multiset(connected)
  }

  /** The pushes of a pass add the newly found ids to the multiset of pushes. */
  lemma PushedStep(connected: set<string>, pushed: seq<string>, edges: seq<Edge>)
    requires multiset(pushed) == multiset(connected)
    ensures multiset(pushed + Fresh(edges, connected)) == multiset(connected + Targets(edges))
  {
    FreshIsUnseenTargets(edges, connected);
    var connected' := connected + Targets(edges);
    assert forall x :: multiset(connected')[x] == (multiset(connected) + multiset(Targets(edges) - connected))[x];
  }

  /** After a pass every id on the stack is still found, and no id outside `m` is. */
  lemma StackStep(m: set<string>, connected: set<string>, rest: seq<string>, current: string, edges: seq<Edge>)
    requires forall k :: 0 <= k < |rest| + 1 ==> (rest + [current])[k] in connected
    requires connected <= m && Targets(edges) <= m
    ensures connected + Targets(edges) <= m
    ensures forall k :: 0 <= k < |rest + Fresh(edges, connected)| ==> (rest + Fresh(edges, connected))[k] in connected + Targets(edges)
  {
    var pushes := Fresh(edges, connected);
    FreshIsUnseenTargets(edges, connected);
    forall k | 0 <= k < |rest + pushes|
      ensures (rest + pushes)[k] in connected + Targets(edges)
    {
      if k < |rest| {
        assert (rest + pushes)[k] == (rest + [current])[k];
      } else {
        assert (rest + pushes)[k] == pushes[k - |rest|];
        assert pushes[k - |rest|] in multiset(pushes);
      }
    }
  }

  /** One pass of the `while` loop keeps `Searching`. */
  lemma SearchStep(nodes: Graph, s: string, m: set<string>, connected: set<string>, rest: seq<string>, current: string, pushed: seq<string>)
    requires Searching(nodes, s, m, connected, rest + [current], pushed)
    requires Targets(Successors(nodes, current)) <= m
    ensures var pushes := Fresh(Successors(nodes, current), connected);
      Searching(nodes, s, m, connected + Targets(Successors(nodes, current)), rest + pushes, pushed + pushes)
  {
    var edges := Successors(nodes, current);
    assert current == (rest + [current])[|rest|];
    BelowClosedStep(nodes, s, connected, current);
    FreshIsUnseenTargets(edges, connected);
    ExpandedStep(nodes, connected, rest, current, Fresh(edges, connected));
    StackStep(m, connected, rest, current, edges);
    PushedStep(connected, pushed, edges);
  }

  /** A pass finds a new node, or finds none and shrinks the stack. */
  lemma SearchShrinks(m: set<string>, connected: set<string>, edges: seq<Edge>)
    requires connected + Targets(edges) <= m
    ensures var pushes := Fresh(edges, connected);
      |m - (connected + Targets(edges))| < |m - connected| || (connected + Targets(edges) == connected && pushes == [])
  {
    var pushes := Fresh(edges, connected);
    var connected' := connected + Targets(edges);
    FreshIsUnseenTargets(edges, connected);
    if pushes != [] {
      var v := pushes[0];
      assert v in multiset(pushes);
      FewerUnfound(m, connected, v, connected');
    } else {
      forall x
        ensures x !in Targets(edges) - connected
      {
        assert multiset(Targets(edges) - connected)[x] == 0;
      }
    }
  }

  /** Finding a new id leaves fewer ids of `m` unfound. */
  lemma FewerUnfound(m: set<string>, connected: set<string>, v: string, connected': set<string>)
    requires connected <= connected' <= m
    requires v !in connected && v in connected'
    ensures |m - connected'| < |m - connected|
  {
    var d := m - connected;
    assert m - connected' == d - connected';
    assert v in d * connected';
  }

  /** A non-empty stack is its rest with its top on the end. */
  lemma SplitLast(xs: seq<string>)
    requires |xs| > 0
    ensures xs == xs[..|xs| - 1] + [xs[|xs| - 1]]
  {
  }

  /** The search starts with only `s` found and on the stack. */
  lemma SearchInit(nodes: Graph, s: string)
    ensures Searching(nodes, s, Mentioned(nodes, s), {s}, [s], [s])
  {
    assert multiset([s]) == multiset({s});
  }

  /** With the stack empty, the found set is the least edge-closed set holding `s`. */
  lemma SearchDone(nodes: Graph, s: string, m: set<string>, connected: set<string>, toVisit: seq<string>, pushed: seq<string>)
    requires Searching(nodes, s, m, connected, toVisit, pushed) && |toVisit| == 0
    ensures s in connected && EdgeClosed(nodes, connected)
    ensures forall reached :: s in reached && EdgeClosed(nodes, reached) ==> connected <= reached
    ensures multiset(pushed) == multiset(connected)
  {
  }

  /**
    The reachability check run when no route is found: `startConnected` ends as the nodes
    reachable from `sNode`, that is the least set that holds `sNode` and the end of every
    edge out of its nodes. The pushes, kept in `pushed`, are the nodes found, each pushed once.
  */
  method StartConnected(nodes: Graph, sNode: string) returns (connected: set<string>, ghost pushed: seq<string>)
    ensures sNode in connected && EdgeClosed(nodes, connected)
    ensures forall reached :: sNode in reached && EdgeClosed(nodes, reached) ==> connected <= reached
    ensures multiset(pushed) == multiset(connected)
  {
    ghost var m := Mentioned(nodes, sNode);
    connected := {sNode};
    var toVisit := [sNode];
    pushed := [sNode];
    SearchInit(nodes, sNode);
    while |toVisit| > 0
      invariant Searching(nodes, sNode, m, connected, toVisit, pushed)
      decreases |m - connected|, |toVisit|
    {
      var current := toVisit[|toVisit| - 1];
      var rest := toVisit[..|toVisit| - 1];
      SplitLast(toVisit);
      var connected', toVisit' := PushUnseen(Successors(nodes, current), connected, rest);
      TargetsMentioned(nodes, sNode, current);
      SearchStep(nodes, sNode, m, connected, rest, current, pushed);
      SearchShrinks(m, connected, Successors(nodes, current));
      pushed := pushed + Fresh(Successors(nodes, current), connected);
      connected, toVisit := connected', toVisit';
    }
    SearchDone(nodes, sNode, m, connected, toVisit, pushed);
  }

  /** `b` is the end of an edge out of `a`. */
  ghost predicate Step(nodes: Graph, a: string, b: string) {
    exists k :: 0 <= k < |Successors(nodes, a)| && Successors(nodes, a)[k].to == b
  }

  /** Consecutive ids of `walk` are joined by edges. */
  ghost predicate IsWalk(nodes: Graph, walk: seq<string>) {
    forall k :: 0 <= k < |walk| - 1 ==> Step(nodes, walk[k], walk[k + 1])
  }

  /** A walk from a node of an edge-closed set stays inside it: every node the walk visits is in the set. */
  lemma {:induction false} WalkStaysInside(nodes: Graph, reached: set<string>, walk: seq<string>, i: nat)
    requires |walk| > 0 && walk[0] in reached && EdgeClosed(nodes, reached)
    requires IsWalk(nodes, walk) && i < |walk|
    ensures walk[i] in reached
  {
    if i > 0 {
      WalkStaysInside(nodes, reached, walk, i - 1);
      assert Step(nodes, walk[i - 1], walk[i]);
      var k :| 0 <= k < |Successors(nodes, walk[i - 1])| && Successors(nodes, walk[i - 1])[k].to == walk[i];
    }
  }

  /**
    So when `eNode` is not in the found set there is no walk from `sNode` to it: the
    clusters are disconnected.
  */
  lemma NotFoundUnreachable(nodes: Graph, sNode: string, connected: set<string>, walk: seq<string>)
    requires sNode in connected && EdgeClosed(nodes, connected)
    requires |walk| > 0 && walk[0] == sNode && IsWalk(nodes, walk)
    ensures walk[|walk| - 1] in connected
  {
    WalkStaysInside(nodes, connected, walk, |walk| - 1);
  }

  // ---------------------------------------------------------------------------------------
  // The drawn route
  // ---------------------------------------------------------------------------------------

  /**
    The points of the drawn polyline: the centre of the start room, each node of the
    route in order, then the centre of the destination room.
  */
  method RoutePoints(nodes: Graph, nodePath: seq<string>, start: (real, real), end: (real, real)) returns (points: seq<(real, real)>)
    requires forall k :: 0 <= k < |nodePath| ==> nodePath[k] in nodes
    ensures |points| == |nodePath| + 2
    ensures points[0] == start && points[|points| - 1] == end
    ensures forall k :: 0 <= k < |nodePath| ==> points[k + 1] == (nodes[nodePath[k]].x, nodes[nodePath[k]].y)
  {
    points := [start];
    for k := 0 to |nodePath|
      invariant |points| == k + 1 && points[0] == start
      invariant forall j :: 0 <= j < k ==> points[j + 1] == (nodes[nodePath[j]].x, nodes[nodePath[j]].y)
    {
      var n := nodes[nodePath[k]];
      points := points + [(n.x, n.y)];
    }
    points := points + [end];
  }
}
