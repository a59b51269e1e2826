/**
 Appending keys to a multi-key channel (the "append" mode of a channel update in
 controller/channel.go): existing keys come first, new ones are trimmed and added once.
 */
module KeyAppend {
  import opened Text
  import opened Lists
  import opened KeyText
  import opened MultiKey

  // ---------------------------------------------------------------------------
  // Operations
  // ---------------------------------------------------------------------------

  /** The existing keys as the update reads them: a text that only looks like an array gives none. */
  function Existing(text: string, parse: Parser): seq<string> {
    if LooksLikeArray(text) then
      if parse(TrimSpace(text)).Some? then parse(TrimSpace(text)).value else []
    else Lines(text)
  }

  /** What the administrator sends: one key per line, or Vertex credentials. */
  datatype Input = PlainKeys(text: string) | VertexKeys(text: string)

  function Trims(keys: seq<string>): (r: seq<string>)
    ensures |r| == |keys| && forall i :: 0 <= i < |r| ==> r[i] == TrimSpace(keys[i])
  {
    seq(|keys|, i requires 0 <= i < |keys| => TrimSpace(keys[i]))
  }

  predicate NotBlank(key: string) {
    key != ""
  }

  /** The keys of the input, or an error for a Vertex array that does not parse. */
  function NewKeys(input: Input, vertex: Parser): Option<seq<string>> {
    match input
    case PlainKeys(text) => Some(Filter(Trims(Split(text, '\n')), NotBlank))
    case VertexKeys(text) => if LooksLikeArray(text) then vertex(text) else Some([text])
  }

  lemma MapFilterMember<T(!new)>(xs: seq<T>, ys: seq<T>, f: T -> T, p: T -> bool, y: T)
    requires |ys| == |xs| && forall i :: 0 <= i < |xs| ==> ys[i] == f(xs[i])
    ensures y in Filter(ys, p) <==> p(y) && exists i :: 0 <= i < |xs| && f(xs[i]) == y
  {
    FilterMember(ys, p, y);
    if i :| 0 <= i < |xs| && f(xs[i]) == y {
      assert ys[i] == y;
    }
  }

  /** Plain input gives exactly the lines that are not blank. */
  lemma PlainKeysMean(text: string, vertex: Parser, key: string)
    ensures var plain := NewKeys(PlainKeys(text), vertex);
            plain.Some? && (key in plain.value <==> key != "" && IsLine(text, key))
  {
    var lines := Split(text, '\n');
    MapFilterMember(lines, Trims(lines), TrimSpace, NotBlank, key);
    hide Split, TrimSpace, Filter;
  }

  /** Some line of the text is `key` between blanks. */
  ghost predicate IsLine(text: string, key: string) {
    exists i :: 0 <= i < |Split(text, '\n')| && TrimSpace(Split(text, '\n')[i]) == key
  }

  /** Vertex input gives one credential, or those of an array. */
  lemma VertexKeysMean(text: string, vertex: Parser)
    ensures NewKeys(VertexKeys(text), vertex) == if "[" <= TrimSpace(text) then vertex(text) else Some([text])
  {
    hide TrimSpace;
  }

  function Unseen(existing: seq<string>): string -> bool {
    var known := Trims(existing);
    (key: string) => key != "" && key !in known
  }

  /** The trimmed new keys that are not there yet, each once. */
  function Added(existing: seq<string>, keys: seq<string>): seq<string> {
    Uniq(Filter(Trims(keys), Unseen(existing)))
  }

  method ReadPlain(text: string) returns (keys: seq<string>)
    ensures Some(keys) == NewKeys(PlainKeys(text), (s: string) => None)
  {
    var input := Split(text, '\n');
    keys := [];
    var i := 0;
    while i < |input|
      invariant 0 <= i <= |input| && keys == Filter(Trims(input)[..i], NotBlank)
    {
      var key := TrimSpace(input[i]);
      assert Trims(input)[..i + 1][..i] == Trims(input)[..i];
      if key != "" {
        keys := keys + [key];
      }
      i := i + 1;
    }
    assert Trims(input)[..i] == Trims(input);
  }

  /** The two loops over a set of seen keys. */
  method Append(existing: seq<string>, keys: seq<string>) returns (all: seq<string>)
    ensures all == existing + Added(existing, keys)
  {
    var seen := Note(existing);
    var deduped: seq<string> := [];
    var i := 0;
    while i < |keys|
      invariant 0 <= i <= |keys| && deduped == Uniq(Filter(Trims(keys)[..i], Unseen(existing)))
      invariant forall key :: key in seen <==> (key != "" && key in Trims(existing)) || key in deduped
      invariant "" !in deduped && forall key :: key in deduped ==> key !in Trims(existing)
    {
      var key := TrimSpace(keys[i]);
      NextAdded(Trims(keys), i, Unseen(existing));
      hide Trims, Uniq, Filter;
      if key != "" && key !in seen {
        seen := seen + {key};
        deduped := deduped + [key];
      }
      i := i + 1;
    }
    assert Trims(keys)[..i] == Trims(keys);
    all := existing + deduped;
  }

  lemma NextAdded(keys: seq<string>, i: nat, p: string -> bool)
    requires i < |keys|
    ensures var before := Uniq(Filter(keys[..i], p));
            Uniq(Filter(keys[..i + 1], p)) == if p(keys[i]) && keys[i] !in before then before + [keys[i]] else before
  {
    assert keys[..i + 1][..i] == keys[..i];
    var before := Filter(keys[..i], p);
    if p(keys[i]) {
      assert (before + [keys[i]])[..|before|] == before;
    }
  }

  method Note(existing: seq<string>) returns (seen: set<string>)
    ensures forall key :: key in seen <==> key != "" && key in Trims(existing)
  {
    seen := {};
    var i := 0;
    while i < |existing|
      invariant 0 <= i <= |existing|
      invariant forall key :: key in seen <==> key != "" && key in Trims(existing)[..i]
    {
      var key := TrimSpace(existing[i]);
      assert Trims(existing)[..i + 1] == Trims(existing)[..i] + [key];
      if key != "" {
        seen := seen + {key};
      }
      i := i + 1;
    }
    assert Trims(existing)[..i] == Trims(existing);
  }

  // ---------------------------------------------------------------------------
  // The list of keys
  // ---------------------------------------------------------------------------

  lemma AddedMember(existing: seq<string>, keys: seq<string>, key: string)
    ensures key in Added(existing, keys) <==> key in Trims(keys) && key != "" && key !in Trims(existing)
  {
    UniqMember(Filter(Trims(keys), Unseen(existing)), key);
    FilterMember(Trims(keys), Unseen(existing), key);
  }

  lemma AddedTrimmed(existing: seq<string>, keys: seq<string>)
    ensures Trims(Added(existing, keys)) == Added(existing, keys)
  {
    var added := Added(existing, keys);
    forall i | 0 <= i < |added|
      ensures TrimSpace(added[i]) == added[i]
    {
      AddedMember(existing, keys, added[i]);
      var j :| 0 <= j < |keys| && TrimSpace(keys[j]) == added[i];
      TrimSpaceIdempotent(keys[j]);
    }
  }

  lemma TrimsConcat(xs: seq<string>, ys: seq<string>)
    ensures Trims(xs + ys) == Trims(xs) + Trims(ys)
  {
  }

  lemma {:induction false} NoDupCount(xs: seq<string>, x: string)
    requires NoDup(xs) && x in xs
    ensures multiset(xs)[x] == 1
  {
    var n := |xs| - 1;
    assert xs == xs[..n] + [xs[n]];
    if xs[n] == x {
      assert x !in xs[..n];
      assert x !in multiset(xs[..n]);
    } else {
      NoDupCount(xs[..n], x);
    }
  }

  /** A new key that was not there before appears exactly once afterwards; one that was there is not repeated. */
  lemma AddedExactlyOnce(existing: seq<string>, keys: seq<string>, key: string)
    requires key in Trims(keys) && key != ""
    ensures multiset(Trims(existing + Added(existing, keys)))[key]
         == if key in Trims(existing) then multiset(Trims(existing))[key] else 1
  {
    var added := Added(existing, keys);
    AddedMember(existing, keys, key);
    AddedTrimmed(existing, keys);
    TrimsConcat(existing, added);
    UniqNoDup(Filter(Trims(keys), Unseen(existing)));
    assert NoDup(added);
    hide Added, Trims;
    if key !in Trims(existing) {
      NoDupCount(added, key);
      assert key !in multiset(Trims(existing));
    } else {
      assert key !in multiset(added);
    }
  }

  /** Sending the same input again adds nothing. */
  lemma AppendIdempotent(existing: seq<string>, keys: seq<string>)
    ensures Added(existing + Added(existing, keys), keys) == []
  {
    var added := Added(existing, keys);
    var again := Added(existing + added, keys);
    AddedTrimmed(existing, keys);
    TrimsConcat(existing, added);
    if again != [] {
      AddedMember(existing + added, keys, again[0]);
      AddedMember(existing, keys, again[0]);
    }
  }

  // ---------------------------------------------------------------------------
  // The stored row
  // ---------------------------------------------------------------------------

  function AppendRow(row: Row, keys: seq<string>, parse: Parser): Row {
    var existing := Existing(row.key, parse);
    Save(row, Join(existing + Added(existing, keys), '\n'), parse)
  }

  function NewRecord(key: string): Record {
    Record(key, ENABLED, None, None)
  }

  function NewRecords(keys: seq<string>): (r: seq<Record>)
    ensures |r| == |keys| && forall i :: 0 <= i < |r| ==> r[i] == NewRecord(keys[i])
  {
    seq(|keys|, i requires 0 <= i < |keys| => NewRecord(keys[i]))
  }

  /** The update reads the keys that are in use unless the text looks like an array and is none. */
  lemma ExistingIff(text: string, parse: Parser)
    requires text != ""
    ensures Existing(text, parse) == GetKeys(text, parse) <==> LooksLikeArray(text) ==> parse(TrimSpace(text)).Some?
  {
    assert |Lines(text)| > 0;
  }

  lemma {:induction false} JoinEmptyIff(parts: seq<string>, sep: char)
    ensures Join(parts, sep) == "" <==> parts == [] || parts == [""]
  {
  }

  lemma NotBlankAdded(existing: seq<string>, keys: seq<string>)
    ensures "" !in Added(existing, keys)
  {
    AddedMember(existing, keys, "");
  }

  /** Rows with the keys `all` and unchanged entries hold the old records followed by fresh ones. */
  lemma ExtendedRecords(row: Row, row': Row, added: seq<string>, parse: Parser)
    requires Sound(row, parse) && GetKeys(row'.key, parse) == GetKeys(row.key, parse) + added
    requires row'.status == row.status && row'.time == row.time && row'.reason == row.reason
    ensures Records(row', parse) == Records(row, parse) + NewRecords(added)
  {
    hide GetKeys, CountedKeys;
  }

  /** An append to an empty text never happens; one that writes an empty text writes nothing. */
  lemma NothingWritten(row: Row, keys: seq<string>, parse: Parser)
    requires Sound(row, parse) && row.key != "" && Existing(row.key, parse) == GetKeys(row.key, parse)
    requires var existing := Existing(row.key, parse); Join(existing + Added(existing, keys), '\n') == ""
    ensures Added(Existing(row.key, parse), keys) == [] && AppendRow(row, keys, parse) == row
  {
    var existing := Existing(row.key, parse);
    var all := existing + Added(existing, keys);
    JoinEmptyIff(all, '\n');
    NotBlankAdded(existing, keys);
    CountedKeysIff(row.key, parse);
    assert existing != [];
    assert existing[0] == all[0];
    assert (map i | i in row.status && i < row.size :: row.status[i]) == row.status;
    hide Added, Existing, Lines, Join;
  }

  /** Storing a longer key list keeps the old records exactly when the text reads back. */
  lemma StoredIff(row: Row, added: seq<string>, parse: Parser)
    requires Sound(row, parse) && Join(GetKeys(row.key, parse) + added, '\n') != ""
    ensures var all := GetKeys(row.key, parse) + added;
            var row' := Save(row, Join(all, '\n'), parse);
            (Sound(row', parse) && Records(row', parse) == Records(row, parse) + NewRecords(added)) <==>
                RoundTrips(all, parse)
  {
    var all := GetKeys(row.key, parse) + added;
    var text := Join(all, '\n');
    var row' := Save(row, text, parse);
    if RoundTrips(all, parse) {
      StoredWell(row, added, parse);
    }
    hide GetKeys, CountedKeys, Join;
    if Records(row', parse) == Records(row, parse) + NewRecords(added) {
      assert forall i :: 0 <= i < |all| ==> (Records(row, parse) + NewRecords(added))[i].key == all[i];
      assert GetKeys(text, parse) == all;
    }
  }

  lemma StoredWell(row: Row, added: seq<string>, parse: Parser)
    requires Sound(row, parse) && Join(GetKeys(row.key, parse) + added, '\n') != ""
    requires RoundTrips(GetKeys(row.key, parse) + added, parse)
    ensures var row' := Save(row, Join(GetKeys(row.key, parse) + added, '\n'), parse);
            Sound(row', parse) && Records(row', parse) == Records(row, parse) + NewRecords(added)
  {
    hide GetKeys, CountedKeys, Join;
    var row' := Save(row, Join(GetKeys(row.key, parse) + added, '\n'), parse);
    assert row'.status == row.status;
    ExtendedRecords(row, row', added, parse);
  }

  /** The text written is empty or reads back as the list it was written from. */
  predicate Stored(all: seq<string>, parse: Parser) {
    Join(all, '\n') == "" || RoundTrips(all, parse)
  }

  /**
   Existing records keep their index, status, time and reason, and the added keys follow, exactly
   when the text reads back.
   */
  lemma AppendKeepsRecordsIff(row: Row, keys: seq<string>, parse: Parser)
    requires Sound(row, parse) && row.key != "" && Existing(row.key, parse) == GetKeys(row.key, parse)
    ensures var existing, row' := Existing(row.key, parse), AppendRow(row, keys, parse);
            (Sound(row', parse) && Records(row', parse) == Records(row, parse) + NewRecords(Added(existing, keys)))
            <==> Stored(existing + Added(existing, keys), parse)
  {
    var existing := Existing(row.key, parse);
    var added := Added(existing, keys);
    if Join(existing + added, '\n') == "" {
      NothingWritten(row, keys, parse);
      assert Records(row, parse) + NewRecords([]) == Records(row, parse);
    } else {
      StoredIff(row, added, parse);
    }
    hide GetKeys, CountedKeys, Join, Added, Existing, Save, Sound, Records, RoundTrips;
  }

  /** The text written is read by the next append as the list it was written from. */
  predicate ReadAgain(all: seq<string>, parse: Parser) {
    RoundTrips(all, parse) && Existing(Join(all, '\n'), parse) == all
  }

  /** Appending the same keys twice stores the same row as once, when the text written reads back. */
  lemma AppendRowIdempotent(row: Row, keys: seq<string>, parse: Parser)
    requires Existing(row.key, parse) != []
    requires ReadAgain(Existing(row.key, parse) + Added(Existing(row.key, parse), keys), parse)
    ensures AppendRow(AppendRow(row, keys, parse), keys, parse) == AppendRow(row, keys, parse)
  {
    var existing := Existing(row.key, parse);
    var all := existing + Added(existing, keys);
    var row' := AppendRow(row, keys, parse);
    AppendIdempotent(existing, keys);
    assert all + [] == all;
    assert GetKeys("", parse) == [];
    assert row' == Save(row, Join(all, '\n'), parse);
    hide Added, Existing, GetKeys, Join, CountedKeys;
    assert row'.key == Join(all, '\n') && AppendRow(row', keys, parse) == Save(row', Join(all, '\n'), parse);
    assert Save(row', row'.key, parse).status == row'.status;
  }

  /** A text that looks like an array and is none is replaced by the new keys, under the old statuses. */
  lemma MisreadKeysAreReplaced(row: Row, keys: seq<string>, parse: Parser, i: nat)
    requires row.key != "" && LooksLikeArray(row.key) && parse(TrimSpace(row.key)).None?
    requires Added([], keys) != [] && RoundTrips(Added([], keys), parse)
    requires i < |Added([], keys)| && i < |GetKeys(row.key, parse)|
    ensures var row' := AppendRow(row, keys, parse);
            && GetKeys(row'.key, parse) == Added([], keys)
            && Records(row', parse)[i] == Records(row, parse)[i].(key := Added([], keys)[i])
  {
    assert [] + Added([], keys) == Added([], keys);
    JoinEmptyIff(Added([], keys), '\n');
    NotBlankAdded([], keys);
    hide Added, Lines;
  }

  // ---------------------------------------------------------------------------
  // One key per line
  // ---------------------------------------------------------------------------

  /** Whether a text looks like an array is decided by its first character that is not a space. */
  lemma LooksLikeArrayIff(text: string)
    ensures var start := TrimLeft(text, IsSpace); LooksLikeArray(text) <==> start != "" && start[0] == '['
  {
    var start := TrimLeft(text, IsSpace);
    TrimLeftStart(text, IsSpace);
    TrimRightEnds(start, IsSpace);
    if start != "" {
      TrimRightKeeps(start, IsSpace);
    }
  }

  lemma {:induction false} TrimRightKeeps(s: string, p: char -> bool)
    requires s != "" && !p(s[0])
    ensures TrimRight(s, p) != ""
  {
    if p(s[|s| - 1]) {
      TrimRightKeeps(s[..|s| - 1], p);
    }
  }

  lemma {:induction false} TrimLeftConcat(s: string, u: string)
    ensures TrimLeft(s + u, IsSpace) ==
        if TrimLeft(s, IsSpace) != "" then TrimLeft(s, IsSpace) + u else TrimLeft(u, IsSpace)
  {
    if s == "" {
      assert s + u == u;
    } else if IsSpace(s[0]) {
      TrimLeftConcat(s[1..], u);
      assert (s + u)[1..] == s[1..] + u;
    }
  }

  lemma {:induction false} NewlinesAreSpace(s: string)
    ensures TrimLeft(TrimLeft(s, IsNewline), IsSpace) == TrimLeft(s, IsSpace)
  {
    if s != "" && IsNewline(s[0]) {
      NewlinesAreSpace(s[1..]);
    }
  }

  lemma {:induction false} TrailingNewlines(s: string)
    ensures TrimLeft(TrimRight(s, IsNewline), IsSpace) == "" ==> TrimLeft(s, IsSpace) == ""
  {
    if s != "" && IsNewline(s[|s| - 1]) {
      var front := s[..|s| - 1];
      TrailingNewlines(front);
      TrimLeftConcat(front, "\n");
      assert s == front + "\n";
      assert TrimLeft("\n", IsSpace) == "";
    }
  }

  /** Removing line breaks at the ends keeps the first character that is not a space. */
  lemma SameStart(text: string)
    requires TrimLeft(text, IsSpace) != ""
    ensures var t, start := TrimBy(text, IsNewline), TrimLeft(text, IsSpace);
            TrimLeft(t, IsSpace) != "" && TrimLeft(t, IsSpace)[0] == start[0]
  {
    var x := TrimLeft(text, IsNewline);
    var t := TrimRight(x, IsNewline);
    NewlinesAreSpace(text);
    TrailingNewlines(x);
    TrimRightEnds(x, IsNewline);
    assert x == t + x[|t|..];
    TrimLeftConcat(t, x[|t|..]);
  }

  /** The lines of a text with something in it are safe to store. */
  lemma LinesSafe(text: string)
    requires TrimBy(text, IsNewline) != ""
    ensures LineSafe(Lines(text)) && Join(Lines(text), '\n') == TrimBy(text, IsNewline)
  {
    var t := TrimBy(text, IsNewline);
    SplitPartsSepFree(t, '\n');
    JoinSplit(t, '\n');
    TrimByFixed(text, IsNewline);
    JoinEnds(Lines(text), '\n');
    hide Split, TrimBy;
  }

  lemma {:induction false} JoinConcat(xs: seq<string>, ys: seq<string>, sep: char)
    requires xs != [] && ys != []
    ensures Join(xs + ys, sep) == Join(xs, sep) + [sep] + Join(ys, sep)
  {
    if |xs| == 1 {
      assert (xs + ys)[1..] == ys;
    } else {
      JoinConcat(xs[1..], ys, sep);
      assert (xs + ys)[1..] == xs[1..] + ys;
    }
  }

  lemma PlainAddedSafe(existing: seq<string>, text: string, vertex: Parser)
    ensures var added := Added(existing, NewKeys(PlainKeys(text), vertex).value);
            SepFree(added, '\n') && "" !in added
  {
    var keys := NewKeys(PlainKeys(text), vertex).value;
    var added := Added(existing, keys);
    NotBlankAdded(existing, keys);
    forall i | 0 <= i < |added|
      ensures '\n' !in added[i]
    {
      AddedMember(existing, keys, added[i]);
      var j :| 0 <= j < |keys| && TrimSpace(keys[j]) == added[i];
      FilterMember(Trims(Split(text, '\n')), NotBlank, keys[j]);
      var k :| 0 <= k < |Split(text, '\n')| && TrimSpace(Split(text, '\n')[k]) == keys[j];
      SplitPartsSepFree(text, '\n');
      NoNewline(Split(text, '\n')[k]);
      NoNewline(keys[j]);
    }
  }

  lemma NoNewline(s: string)
    ensures '\n' !in s ==> '\n' !in TrimSpace(s)
  {
    if '\n' in TrimSpace(s) {
      TrimByChars(s, IsSpace, '\n');
    }
  }

  lemma SafeConcat(existing: seq<string>, added: seq<string>)
    requires existing != [] && LineSafe(existing) && SepFree(added, '\n') && "" !in added
    ensures LineSafe(existing + added)
  {
    if added != [] {
      assert added[|added| - 1] in added;
    }
  }

  /** The keys written out again, with more behind them, begin with the trimmed text. */
  lemma WrittenAgain(text: string, added: seq<string>)
    ensures Join(Lines(text) + added, '\n')
         == TrimBy(text, IsNewline) + if added == [] then "" else "\n" + Join(added, '\n')
  {
    var t, existing := TrimBy(text, IsNewline), Lines(text);
    JoinSplit(t, '\n');
    assert Join(existing, '\n') == t;
    if added == [] {
      assert existing + added == existing && t + "" == t;
    } else {
      SplitNotEmpty(t);
      JoinConcat(existing, added, '\n');
      hide Lines, TrimBy, Join;
      assert t + "\n" + Join(added, '\n') == t + ("\n" + Join(added, '\n'));
    }
  }

  lemma SplitNotEmpty(t: string)
    ensures Split(t, '\n') != []
  {
  }

  /** The longer text starts like the text it extends, so it is not mistaken for an array either. */
  lemma NotMistaken(text: string, added: seq<string>)
    requires !LooksLikeArray(text) && TrimLeft(text, IsSpace) != ""
    ensures !LooksLikeArray(Join(Lines(text) + added, '\n')) && LineSafe(Lines(text))
  {
    assert TrimLeft("", IsSpace) == "";
    hide *;
    var t, tail := TrimBy(text, IsNewline), if added == [] then "" else "\n" + Join(added, '\n');
    LooksLikeArrayIff(text);
    SameStart(text);
    LinesSafe(text);
    WrittenAgain(text, added);
    LooksLikeArrayIff(t + tail);
    TrimLeftConcat(t, tail);
  }

  /** Keys kept one per line take one key per line: nothing is lost, moved or merged. */
  lemma PlainAppendReadsBack(text: string, input: string, parse: Parser, vertex: Parser)
    requires !LooksLikeArray(text) && TrimSpace(text) != ""
    ensures var existing := Existing(text, parse);
            existing == GetKeys(text, parse)
                && RoundTrips(existing + Added(existing, NewKeys(PlainKeys(input), vertex).value), parse)
  {
    var existing := Existing(text, parse);
    var added := Added(existing, NewKeys(PlainKeys(input), vertex).value);
    assert TrimLeft(text, IsSpace) != "";
    NotMistaken(text, added);
    PlainAddedSafe(existing, input, vertex);
    SafeConcat(existing, added);
    hide Added, NewKeys, Lines, TrimBy, TrimLeft, Join, LooksLikeArray;
    RoundTripsIff(existing + added, parse);
  }

  /** So for keys kept one per line, sending the same lines again changes nothing in the row. */
  lemma PlainAppendTwice(row: Row, input: string, parse: Parser, vertex: Parser)
    requires !LooksLikeArray(row.key) && TrimSpace(row.key) != ""
    ensures var keys := NewKeys(PlainKeys(input), vertex).value;
            AppendRow(AppendRow(row, keys, parse), keys, parse) == AppendRow(row, keys, parse)
  {
    var keys := NewKeys(PlainKeys(input), vertex).value;
    var existing := Existing(row.key, parse);
    var all := existing + Added(existing, keys);
    assert TrimLeft(row.key, IsSpace) != "";
    PlainAppendReadsBack(row.key, input, parse, vertex);
    NotMistaken(row.key, Added(existing, keys));
    assert existing == Lines(row.key) && all != [];
    PlainReadAgain(all, parse);
    hide Added, NewKeys, Lines, TrimBy, TrimLeft, Join, LooksLikeArray, AppendRow;
    AppendRowIdempotent(row, keys, parse);
  }

  lemma PlainReadAgain(all: seq<string>, parse: Parser)
    requires RoundTrips(all, parse) && all != [] && !LooksLikeArray(Join(all, '\n'))
    ensures ReadAgain(all, parse)
  {
    hide Lines, Join;
    assert GetKeys("", parse) == [];
  }
}
