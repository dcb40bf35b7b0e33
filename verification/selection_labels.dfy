/**
 * The selection list offered by the vector-store picker: one display label
 * per record, a dictionary from store name to id, and the regular expression
 * `\d+\.\s+(.+?)\s+\(\d{4}-\d{2}-\d{2}` that recovers the name from the
 * label the user picked (matched with `re.match`, so anchored at the start).
 */
module SelectionLabels {
  import opened PyText
  import opened StoreRecords
  import opened StoreSort

  /** The display label `f"{i}. {name} ({created_at_formatted})"`. */
  function Label(rank: nat, s: Store): (l: string)
    ensures |l| == |NatToString(rank)| + |s.name| + |s.createdAtFormatted| + 5
  {
    NatToString(rank) + ". " + s.name + " (" + s.createdAtFormatted + ")"
  }

  /** The dictionary `name_to_id_mapping[store['name']] = store['id']` fills in, assigning in list order. */
  function NameToId(stores: seq<Store>): map<string, string>
  {
    if stores == [] then map[]
    else NameToId(stores[..|stores| - 1])[stores[|stores| - 1].name := stores[|stores| - 1].id]
  }

  /** The last index of a record named `name`, or -1. */
  function LastWithName(stores: seq<Store>, name: string): (r: int)
    ensures -1 <= r < |stores|
    ensures r >= 0 ==> stores[r].name == name
    ensures forall i :: r < i < |stores| ==> stores[i].name != name
  {
    if stores == [] then -1
    else if stores[|stores| - 1].name == name then |stores| - 1
    else LastWithName(stores[..|stores| - 1], name)
  }

  /**
   * The keys of the dictionary are exactly the names in the list, and a
   * name maps to the id of the LAST record carrying it: a later record of
   * the same name overwrites an earlier one.
   */
  lemma {:induction false} NameToIdSpec(stores: seq<Store>, name: string)
    ensures name in NameToId(stores) <==> LastWithName(stores, name) >= 0
    ensures name in NameToId(stores) ==> NameToId(stores)[name] == stores[LastWithName(stores, name)].id
  {
    if stores != [] {
      var init := stores[..|stores| - 1];
      NameToIdSpec(init, name);
      if stores[|stores| - 1].name != name {
        assert LastWithName(stores, name) == LastWithName(init, name);
        if LastWithName(init, name) >= 0 {
          assert stores[LastWithName(init, name)] == init[LastWithName(init, name)];
        }
      }
    }
  }

  /** Every name in the list is a key, and every key is a name in the list. */
  lemma NameToIdKeys(stores: seq<Store>)
    ensures forall name :: name in NameToId(stores) <==> exists i :: 0 <= i < |stores| && stores[i].name == name
  {
    forall name ensures name in NameToId(stores) <==> exists i :: 0 <= i < |stores| && stores[i].name == name {
      NameToIdSpec(stores, name);
      var r := LastWithName(stores, name);
      if r < 0 {
        assert forall i :: 0 <= i < |stores| ==> stores[i].name != name;
      }
    }
  }

  /**
   * On a newest-first list, a name shared by several records maps to the id
   * of an oldest record of that name.
   */
  lemma NewestFirstMapsToOldest(stores: seq<Store>, name: string)
    requires forall i, j :: 0 <= i < j < |stores| ==> stores[i].createdAt >= stores[j].createdAt
    requires name in NameToId(stores)
    ensures exists j ::
      && 0 <= j < |stores| && stores[j].name == name && NameToId(stores)[name] == stores[j].id
      && (forall i :: 0 <= i < |stores| && stores[i].name == name ==> stores[j].createdAt <= stores[i].createdAt)
  {
    NameToIdSpec(stores, name);
    var j := LastWithName(stores, name);
    forall i | 0 <= i < |stores| && stores[i].name == name ensures stores[j].createdAt <= stores[i].createdAt {
      if i != j {
        assert i < j;
      }
    }
  }

  /**
   * `create_selection_mapping`: the labels numbered from 1 in list order,
   * and the name-to-id dictionary.
   */
  method CreateSelectionMapping(latestStores: seq<Store>)
    returns (selectionOptions: seq<string>, nameToIdMapping: map<string, string>)
    ensures |selectionOptions| == |latestStores|
    ensures forall i :: 0 <= i < |latestStores| ==> selectionOptions[i] == Label(i + 1, latestStores[i])
    ensures nameToIdMapping == NameToId(latestStores)
  {
    selectionOptions := [];
    nameToIdMapping := map[];
    var i := 0;
    while i < |latestStores|
      invariant 0 <= i <= |latestStores|
      invariant |selectionOptions| == i
      invariant forall k :: 0 <= k < i ==> selectionOptions[k] == Label(k + 1, latestStores[k])
      invariant nameToIdMapping == NameToId(latestStores[..i])
    {
      var store := latestStores[i];
      selectionOptions := selectionOptions + [Label(i + 1, store)];
      assert selectionOptions[i] == Label(i + 1, latestStores[i]);
      assert latestStores[..i + 1][..i] == latestStores[..i];
      nameToIdMapping := nameToIdMapping[store.name := store.id];
      assert nameToIdMapping == NameToId(latestStores[..i + 1]);
      i := i + 1;
    }
    assert latestStores[..i] == latestStores;
  }

  /** The length of the run of whitespace starting at `i`. */
  function SpaceRun(s: string, i: nat): (w: nat)
    requires i <= |s|
    ensures i + w <= |s|
    decreases |s| - i
  {
    if i < |s| && IsSpace(s[i]) then 1 + SpaceRun(s, i + 1) else 0
  }

  /** The run holds whitespace only and stops at the end or at a character that is not whitespace. */
  lemma {:induction false} SpaceRunSpec(s: string, i: nat)
    requires i <= |s|
    ensures forall j :: i <= j < i + SpaceRun(s, i) ==> IsSpace(s[j])
    ensures i + SpaceRun(s, i) == |s| || !IsSpace(s[i + SpaceRun(s, i)])
    decreases |s| - i
  {
    if i < |s| && IsSpace(s[i]) {
      SpaceRunSpec(s, i + 1);
    }
  }

  /** The length of the run of digits starting at `i`. */
  function DigitRun(s: string, i: nat): (w: nat)
    requires i <= |s|
    ensures i + w <= |s|
    decreases |s| - i
  {
    if i < |s| && IsDigit(s[i]) then 1 + DigitRun(s, i + 1) else 0
  }

  /** A run is determined by where it stops. */
  lemma {:induction false} SpaceRunIs(s: string, i: nat, w: nat)
    requires i + w <= |s|
    requires forall j :: i <= j < i + w ==> IsSpace(s[j])
    requires i + w == |s| || !IsSpace(s[i + w])
    ensures SpaceRun(s, i) == w
    decreases w
  {
    if w > 0 {
      SpaceRunIs(s, i + 1, w - 1);
    }
  }

  lemma {:induction false} DigitRunIs(s: string, i: nat, w: nat)
    requires i + w <= |s|
    requires forall j :: i <= j < i + w ==> IsDigit(s[j])
    requires i + w == |s| || !IsDigit(s[i + w])
    ensures DigitRun(s, i) == w
    decreases w
  {
    if w > 0 {
      DigitRunIs(s, i + 1, w - 1);
    }
  }

  /** The character the pattern `\d{4}-\d{2}-\d{2}` expects at offset `j`. */
  predicate DateCharAt(c: char, j: int) {
    if j == 4 || j == 7 then c == '-' else IsDigit(c)
  }

  /** Ten characters of the shape `dddd-dd-dd`. */
  predicate DateChars(t: string) {
    |t| == 10 && forall j :: 0 <= j < 10 ==> DateCharAt(t[j], j)
  }

  /** `\d{4}-\d{2}-\d{2}` matches at index `q`. */
  predicate DateAt(s: string, q: int) {
    0 <= q && q + 10 <= |s| && DateChars(s[q..q + 10])
  }

  /** `\s+\(\d{4}-\d{2}-\d{2}` matches at index `q`; `\s+` is greedy and `\(` cannot be whitespace, so only the full run can be followed by `(`. */
  predicate DateSuffixAt(s: string, q: nat) {
    q <= |s| &&
    var w := SpaceRun(s, q);
    w >= 1 && q + w < |s| && s[q + w] == '(' && DateAt(s, q + w + 1)
  }

  /**
   * The lazy group `(.+?)` begun at `g`: the least end `e`, at or after the
   * candidate given, at which the rest of the pattern matches; `.` stops at a newline.
   */
  function LazyGroupEnd(s: string, g: nat, e: nat): Option<nat>
    requires g < e
    decreases |s| + 1 - e
  {
    if e > |s| then None
    else if s[e - 1] == '\n' then None
    else if DateSuffixAt(s, e) then Some(e)
    else LazyGroupEnd(s, g, e + 1)
  }

  /**
   * The end the lazy group settles on lies within the text, completes the
   * pattern, is the least such end from the candidate on, and the group
   * holds no newline.
   */
  lemma {:induction false} LazyGroupEndSpec(s: string, g: nat, e: nat)
    requires g < e
    ensures var r := LazyGroupEnd(s, g, e);
      r.Some? ==>
        && e <= r.value <= |s| && DateSuffixAt(s, r.value)
        && (forall m :: e <= m < r.value ==> !DateSuffixAt(s, m))
        && (forall j :: e - 1 <= j < r.value ==> s[j] != '\n')
    decreases |s| + 1 - e
  {
    if e <= |s| && s[e - 1] != '\n' && !DateSuffixAt(s, e) {
      LazyGroupEndSpec(s, g, e + 1);
    }
  }

  /**
   * The group for the `\s+` after the dot matching `L` characters, trying
   * the longest first as the backtracking matcher does.
   */
  function GroupWithSpaces(s: string, p: nat, L: nat): Option<string>
    requires p + L <= |s|
    decreases L
  {
    if L == 0 then None
    else match LazyGroupEnd(s, p + L, p + L + 1)
      case Some(e) =>
        LazyGroupEndSpec(s, p + L, p + L + 1);
        Some(s[p + L..e])
      case None => GroupWithSpaces(s, p, L - 1)
  }

  /** A group the matcher yields is non-empty and holds no newline. */
  lemma {:induction false} GroupWithSpacesSpec(s: string, p: nat, L: nat)
    requires p + L <= |s|
    ensures var r := GroupWithSpaces(s, p, L);
      r.Some? ==> r.value != [] && forall j :: 0 <= j < |r.value| ==> r.value[j] != '\n'
    decreases L
  {
    if L > 0 {
      LazyGroupEndSpec(s, p + L, p + L + 1);
      if LazyGroupEnd(s, p + L, p + L + 1).None? {
        GroupWithSpacesSpec(s, p, L - 1);
      }
    }
  }

  /** `re.match(r'\d+\.\s+(.+?)\s+\(\d{4}-\d{2}-\d{2}', text)` and its `group(1)`, or `None`. */
  function MatchLabelName(text: string): Option<string> {
    var d := DigitRun(text, 0);
    if d == 0 || d >= |text| || text[d] != '.' then None
    else GroupWithSpaces(text, d + 1, SpaceRun(text, d + 1))
  }

  /** The name the regex yields is non-empty and holds no newline; a text not starting with a digit does not match. */
  lemma MatchLabelNameSpec(text: string)
    ensures var r := MatchLabelName(text);
      r.Some? ==> r.value != [] && forall j :: 0 <= j < |r.value| ==> r.value[j] != '\n'
    ensures (text == [] || !IsDigit(text[0])) ==> MatchLabelName(text).None?
  {
    var d := DigitRun(text, 0);
    if d != 0 && d < |text| && text[d] == '.' {
      GroupWithSpacesSpec(text, d + 1, SpaceRun(text, d + 1));
    }
  }

  /**
   * The name and id the picker returns for the chosen label: the regex
   * group and `name_to_id_mapping.get(name)`, or `(None, None)` when nothing
   * is chosen or the label does not match.
   */
  function SelectionFromLabel(selected: string, nameToId: map<string, string>): (r: (Option<string>, Option<string>))
    ensures r.0.None? ==> r.1.None?
    ensures r.0.Some? ==>
      && MatchLabelName(selected) == r.0
      && (r.1.Some? <==> r.0.value in nameToId)
      && (r.1.Some? ==> r.1.value == nameToId[r.0.value])
    ensures selected == [] ==> r.0.None?
  {
    if selected == [] then (None, None)
    else match MatchLabelName(selected)
      case None => (None, None)
      case Some(name) => (Some(name), if name in nameToId then Some(nameToId[name]) else None)
  }

  /** `name` appears in `text` at index `g`, stated character by character. */
  predicate NameAt(text: string, g: nat, name: string) {
    g + |name| <= |text| && forall j :: 0 <= j < |name| ==> text[g + j] == name[j]
  }

  /**
   * The names the regex gives back unchanged: non-empty, no newline, no
   * surrounding whitespace, and nothing inside that itself looks like
   * `\s+\(dddd-dd-dd`.
   */
  predicate RecoverableName(name: string) {
    && name != []
    && !IsSpace(name[0]) && !IsSpace(name[|name| - 1])
    && (forall j :: 0 <= j < |name| ==> name[j] != '\n')
    && (forall q :: 0 <= q <= |name| ==> !DateSuffixAt(name, q))
  }

  /** Inside a label, no candidate end within the name completes the pattern. */
  lemma NoEarlyDateSuffix(text: string, g: nat, name: string, m: nat)
    requires RecoverableName(name)
    requires g + |name| < |text| && IsSpace(text[g + |name|])
    requires NameAt(text, g, name)
    requires 0 < m < |name|
    ensures !DateSuffixAt(text, g + m)
  {
    if DateSuffixAt(text, g + m) {
      SpaceRunSpec(text, g + m);
      var p := g + m + SpaceRun(text, g + m);
      // the run cannot cover the name's last, non-space character
      assert text[g + |name| - 1] == name[|name| - 1];
      if p + 11 <= g + |name| {
        DateSuffixInsideName(text, g, name, m);
        assert false;
      } else {
        // the date would cover the whitespace after the name
        SpaceIsNotDigit(text[g + |name|]);
        assert false;
      }
    }
  }

  /** A date suffix found at a candidate end inside the name, and wholly inside it, is one of the name's own. */
  lemma DateSuffixInsideName(text: string, g: nat, name: string, m: nat)
    requires NameAt(text, g, name)
    requires 0 < m < |name|
    requires DateSuffixAt(text, g + m)
    requires g + m + SpaceRun(text, g + m) + 11 <= g + |name|
    ensures DateSuffixAt(name, m)
  {
    SpaceRunSpec(text, g + m);
    var w := SpaceRun(text, g + m);
    var p := g + m + w;
    forall j | m <= j < m + w ensures IsSpace(name[j]) {
      assert text[g + j] == name[j];
    }
    assert name[m + w] == text[p];
    SpaceRunIs(name, m, w);
    assert name[m + w + 1..m + w + 11] == text[p + 1..p + 11];
  }

  /** The lazy group, started on the first name character, ends exactly after the name. */
  lemma {:induction false} LazyGroupEndsAfterName(text: string, g: nat, name: string, e: nat)
    requires RecoverableName(name)
    requires g + |name| < |text| && IsSpace(text[g + |name|])
    requires NameAt(text, g, name)
    requires DateSuffixAt(text, g + |name|)
    requires g < e <= g + |name|
    ensures LazyGroupEnd(text, g, e) == Some(g + |name|)
    decreases g + |name| - e
  {
    assert text[e - 1] == name[e - 1 - g];
    if e < g + |name| {
      NoEarlyDateSuffix(text, g, name, e - g);
      LazyGroupEndsAfterName(text, g, name, e + 1);
    }
  }

  /**
   * `text` is laid out as `d` digits, `. `, the name, `w` whitespace
   * characters, `(` and a date.
   */
  predicate LabelShape(text: string, d: nat, name: string, w: nat) {
    && RecoverableName(name)
    && 1 <= d && 1 <= w
    && d + 2 + |name| + w + 11 <= |text|
    && (forall k :: 0 <= k < d ==> IsDigit(text[k]))
    && text[d] == '.' && text[d + 1] == ' '
    && NameAt(text, d + 2, name)
    && (forall k :: d + 2 + |name| <= k < d + 2 + |name| + w ==> IsSpace(text[k]))
    && text[d + 2 + |name| + w] == '('
    && DateAt(text, d + 2 + |name| + w + 1)
  }

  /** A text of that layout matches, and the group is the name. */
  lemma MatchesLabelShape(text: string, d: nat, name: string, w: nat)
    requires LabelShape(text, d, name, w)
    ensures MatchLabelName(text) == Some(name)
  {
    ShapePrefix(text, d, name, w);
    ShapeGroup(text, d, name, w);
    ShapeConclusion(text, d, d + 2 + |name|, name);
  }

  /** In that layout the match comes down to the group for the one space after the dot. */
  lemma ShapePrefix(text: string, d: nat, name: string, w: nat)
    requires LabelShape(text, d, name, w)
    ensures MatchLabelName(text) == GroupWithSpaces(text, d + 1, 1)
  {
    assert text[d + 2] == name[0];
    DigitRunIs(text, 0, d);
    SpaceRunIs(text, d + 1, 1);
    MatchAfterDot(text, d);
  }

  /** In that layout the lazy group begun on the name ends right after it. */
  lemma ShapeGroup(text: string, d: nat, name: string, w: nat)
    requires LabelShape(text, d, name, w)
    ensures LazyGroupEnd(text, d + 2, d + 3) == Some(d + 2 + |name|)
  {
    var g := d + 2;
    DateSuffixFrom(text, g + |name|, w);
    LazyGroupEndsAfterName(text, g, name, g + 1);
  }

  /** The match is the group for one whitespace character, and that group is the name. */
  lemma ShapeConclusion(text: string, d: nat, e: nat, name: string)
    requires 1 <= d && name != [] && e == d + 2 + |name| && e <= |text|
    requires MatchLabelName(text) == GroupWithSpaces(text, d + 1, 1)
    requires LazyGroupEnd(text, d + 2, d + 3) == Some(e)
    requires NameAt(text, d + 2, name)
    ensures MatchLabelName(text) == Some(name)
  {
    GroupWithOneSpace(text, d + 1, e);
    assert text[d + 2..e] == name;
  }

  /** After the digits and the dot, the match is the group for the whitespace run that follows. */
  lemma MatchAfterDot(text: string, d: nat)
    requires 1 <= d < |text| && DigitRun(text, 0) == d && text[d] == '.'
    ensures MatchLabelName(text) == GroupWithSpaces(text, d + 1, SpaceRun(text, d + 1))
  {
  }

  /** With a single whitespace character after the dot, the group is the lazy group's text. */
  lemma GroupWithOneSpace(text: string, p: nat, e: nat)
    requires p + 1 < e <= |text|
    requires LazyGroupEnd(text, p + 1, p + 2) == Some(e)
    ensures GroupWithSpaces(text, p, 1) == Some(text[p + 1..e])
  {
  }

  /** A whitespace run of `w`, then `(` and a date, complete the pattern at `q`. */
  lemma DateSuffixFrom(text: string, q: nat, w: nat)
    requires 1 <= w && q + w < |text|
    requires forall k :: q <= k < q + w ==> IsSpace(text[k])
    requires text[q + w] == '(' && DateAt(text, q + w + 1)
    ensures DateSuffixAt(text, q)
  {
    SpaceRunIs(text, q, w);
  }

  /** A date at the start of `f` stays a date where `f` is copied into `text`. */
  lemma DateCopied(text: string, q: nat, f: string)
    requires q + |f| <= |text|
    requires forall j :: 0 <= j < |f| ==> text[q + j] == f[j]
    requires DateAt(f, 0)
    ensures DateAt(text, q)
  {
    var date := text[q..q + 10];
    forall j | 0 <= j < 10 ensures DateCharAt(date[j], j) {
      assert date[j] == f[..10][j];
    }
  }

  /** `text` reads `digits`, `. `, `name`, ` (`, `f`, `)`, stated character by character. */
  predicate LaidOut(text: string, digits: string, name: string, f: string) {
    var d, n := |digits|, |name|;
    && |text| == d + n + |f| + 5
    && (forall k :: 0 <= k < d ==> text[k] == digits[k])
    && text[d] == '.' && text[d + 1] == ' '
    && NameAt(text, d + 2, name)
    && text[d + 2 + n] == ' ' && text[d + 3 + n] == '('
    && (forall j :: 0 <= j < |f| ==> text[d + 4 + n + j] == f[j])
  }

  /** The label of a record is its rank, `. `, its name, ` (`, its date, `)`. */
  lemma LabelChars(rank: nat, s: Store)
    ensures LaidOut(Label(rank, s), NatToString(rank), s.name, s.createdAtFormatted)
  {
    var digits, f := NatToString(rank), s.createdAtFormatted;
    assert Label(rank, s) == digits + (". " + (s.name + (" (" + (f + ")"))));
  }

  /** Digits, `. `, a recoverable name, ` (` and a date give the layout the regex expects. */
  lemma LaidOutIsShaped(text: string, digits: string, name: string, f: string)
    requires LaidOut(text, digits, name, f)
    requires digits != [] && forall k :: 0 <= k < |digits| ==> IsDigit(digits[k])
    requires RecoverableName(name) && DateAt(f, 0)
    ensures LabelShape(text, |digits|, name, 1)
  {
    DateCopied(text, |digits| + 4 + |name|, f);
  }

  /** The same with a name followed by a whitespace character: the layout shows the name followed by two. */
  lemma LaidOutWithSpaceIsShaped(text: string, digits: string, name: string, c: char, f: string)
    requires LaidOut(text, digits, name + [c], f)
    requires digits != [] && forall k :: 0 <= k < |digits| ==> IsDigit(digits[k])
    requires RecoverableName(name) && IsSpace(c) && DateAt(f, 0)
    ensures LabelShape(text, |digits|, name, 2)
  {
    var d, n := |digits|, |name|;
    assert NameAt(text, d + 2, name) by {
      forall j | 0 <= j < n ensures text[d + 2 + j] == name[j] {
        assert (name + [c])[j] == name[j];
      }
    }
    assert text[d + 2 + n] == c by {
      assert (name + [c])[n] == c;
    }
    DateCopied(text, d + 5 + n, f);
  }

  /**
   * The regex recovers the name from the label `create_selection_mapping`
   * built, whenever the name is recoverable and the formatted date begins
   * with `dddd-dd-dd`.
   */
  lemma LabelRoundTrip(rank: nat, s: Store)
    requires RecoverableName(s.name)
    requires DateAt(s.createdAtFormatted, 0)
    ensures MatchLabelName(Label(rank, s)) == Some(s.name)
  {
    LabelChars(rank, s);
    LaidOutIsShaped(Label(rank, s), NatToString(rank), s.name, s.createdAtFormatted);
    MatchesLabelShape(Label(rank, s), |NatToString(rank)|, s.name, 1);
  }

  /**
   * A name ending in whitespace comes back without it: the lazy group stops
   * before the whitespace, so the recovered name is not a key of the
   * dictionary unless another record carries the shortened name.
   */
  lemma TrailingSpaceIsLost(rank: nat, s: Store, c: char)
    requires RecoverableName(s.name) && IsSpace(c)
    requires DateAt(s.createdAtFormatted, 0)
    ensures MatchLabelName(Label(rank, s.(name := s.name + [c]))) == Some(s.name)
    ensures SelectionFromLabel(Label(rank, s.(name := s.name + [c])), NameToId([s.(name := s.name + [c])])) ==
      (Some(s.name), None)
  {
    var t := s.(name := s.name + [c]);
    LabelChars(rank, t);
    LaidOutWithSpaceIsShaped(Label(rank, t), NatToString(rank), s.name, c, s.createdAtFormatted);
    MatchesLabelShape(Label(rank, t), |NatToString(rank)|, s.name, 2);
    assert NameToId([t]) == map[t.name := t.id];
    assert s.name != t.name by {
      assert |s.name| != |t.name|;
    }
  }

  /**
   * Picking the label of record `i` from the list yields that record's name
   * and the id of the last record with the same name.
   */
  lemma SelectingLabelYieldsLastId(stores: seq<Store>, i: nat)
    requires i < |stores|
    requires RecoverableName(stores[i].name)
    requires DateAt(stores[i].createdAtFormatted, 0)
    ensures SelectionFromLabel(Label(i + 1, stores[i]), NameToId(stores)) ==
      (Some(stores[i].name), Some(stores[LastWithName(stores, stores[i].name)].id))
  {
    var name, shown := stores[i].name, Label(i + 1, stores[i]);
    LabelRoundTrip(i + 1, stores[i]);
    NameToIdSpec(stores, name);
    assert shown != [];
  }
}
