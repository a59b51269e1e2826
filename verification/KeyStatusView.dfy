/** The paged and filtered status view of a multi-key channel (controller/channel.go). */
module KeyStatusView {
  import opened Lists
  import opened KeyText
  import opened MultiKey

  const DEFAULT_PAGE_SIZE := 50
  const PREVIEW := 10

  datatype KeyStatus = KeyStatus(index: int, status: int, disabledTime: int, reason: string, preview: string)

  datatype View = View(
    keys: seq<KeyStatus>,
    total: nat,
    page: nat,
    pageSize: nat,
    totalPages: nat,
    enabled: nat,
    manual: nat,
    auto: nat)

  function OrElse<T>(o: Option<T>, default: T): T {
    if o.Some? then o.value else default
  }

  /** One line of the view; an enabled key shows neither time nor reason. */
  function Describe(record: Record, i: nat): KeyStatus {
    var shown := record.status != ENABLED;
    KeyStatus(i, record.status,
              if shown then OrElse(record.time, 0) else 0,
              if shown then OrElse(record.reason, "") else "",
              if |record.key| > PREVIEW then record.key[..PREVIEW] + "..." else record.key)
  }

  /** What a line shows: position and status, time and reason of a disabled key only, the beginning of a long key. */
  lemma LineMeans(record: Record, i: nat)
    ensures var line := Describe(record, i);
            && line.index == i && line.status == record.status
            && (record.status == 1 ==> line.disabledTime == 0 && line.reason == "")
            && (record.status != 1 ==>
                  && (record.time.Some? ==> line.disabledTime == record.time.value)
                  && (record.time.None? ==> line.disabledTime == 0)
                  && (record.reason.Some? ==> line.reason == record.reason.value)
                  && (record.reason.None? ==> line.reason == ""))
            && (|record.key| <= 10 ==> line.preview == record.key)
            && (|record.key| > 10 ==> line.preview == record.key[..10] + "...")
  {
  }

  function All(records: seq<Record>): (r: seq<KeyStatus>)
    ensures |r| == |records| && forall i :: 0 <= i < |r| ==> r[i] == Describe(records[i], i)
  {
    seq(|records|, i requires 0 <= i < |records| => Describe(records[i], i))
  }

  function HasStatus(status: int): KeyStatus -> bool {
    (k: KeyStatus) => k.status == status
  }

  function Shown(records: seq<Record>, filter: Option<int>): seq<KeyStatus> {
    if filter.Some? then Filter(All(records), HasStatus(filter.value)) else All(records)
  }

  function Min(a: nat, b: nat): nat {
    if a < b then a else b
  }

  /** At most `size` entries from `start` on. */
  function Cut<T>(xs: seq<T>, start: nat, size: nat): seq<T> {
    if start >= |xs| then [] else xs[start..Min(start + size, |xs|)]
  }

  /** Page `p`, counted from 1, of `size` entries. */
  function Page<T>(xs: seq<T>, size: nat, p: nat): seq<T>
    requires p > 0
  {
    Cut(xs, (p - 1) * size, size)
  }

  /** The number of pages; an empty view has one. */
  function Pages(total: nat, size: nat): (n: nat)
    requires size > 0
    ensures n > 0
  {
    if (total + size - 1) / size == 0 then 1 else (total + size - 1) / size
  }

  /** `get_key_status`. */
  method GetKeyStatus(row: Row, parse: Parser, page: int, pageSize: int, filter: Option<int>) returns (v: View)
    ensures v.pageSize == if pageSize <= 0 then 50 else pageSize
    ensures var shown := Shown(Records(row, parse), filter);
            && v.total == |shown| && v.totalPages == Pages(|shown|, v.pageSize)
            && v.page == (if page <= 0 then 1 else if page > v.totalPages then v.totalPages else page)
            && v.keys == Page(shown, v.pageSize, v.page)
    ensures var all := All(Records(row, parse));
            && v.enabled == |Filter(all, HasStatus(1))|
            && v.manual == |Filter(all, HasStatus(2))|
            && v.auto == |Filter(all, HasStatus(3))|
  {
    var size := if pageSize <= 0 then DEFAULT_PAGE_SIZE else pageSize;
    var all, enabled, manual, auto := List(row, GetKeys(row.key, parse), parse);
    var filtered := all;
    if filter.Some? {
      filtered := Select(all, filter.value);
    }
    hide *;
    var keys, p, pages := Paginate(filtered, page, size);
    v := View(keys, |filtered|, p, size, pages, enabled, manual, auto);
  }

  /** Clamp the page and cut it out. */
  method Paginate(filtered: seq<KeyStatus>, page: int, size: nat) returns (keys: seq<KeyStatus>, p: nat, pages: nat)
    requires size > 0
    ensures pages == Pages(|filtered|, size)
    ensures p == if page <= 0 then 1 else if page > pages then pages else page
    ensures keys == Page(filtered, size, p)
  {
    var total := |filtered|;
    pages := Pages(total, size);
    p := if page <= 0 then 1 else page;
    hide Pages, Cut;
    if p > pages {
      p := pages;
    }
    keys := CutOut(filtered, (p - 1) * size, size);
  }

  method CutOut(filtered: seq<KeyStatus>, start: nat, size: nat) returns (keys: seq<KeyStatus>)
    ensures keys == Cut(filtered, start, size)
  {
    var total := |filtered|;
    var end := start + size;
    if end > total {
      end := total;
    }
    keys := [];
    if start < total {
      keys := filtered[start..end];
    }
  }

  /** The loop that builds and counts all lines. */
  method List(row: Row, keys: seq<string>, ghost parse: Parser)
      returns (all: seq<KeyStatus>, enabled: nat, manual: nat, auto: nat)
    requires keys == GetKeys(row.key, parse)
    ensures all == All(Records(row, parse))
    ensures enabled == |Filter(all, HasStatus(ENABLED))| && manual == |Filter(all, HasStatus(MANUALLY_DISABLED))|
    ensures auto == |Filter(all, HasStatus(AUTO_DISABLED))|
  {
    hide GetKeys, HasStatus, Filter;
    all, enabled, manual, auto := [], 0, 0, 0;
    CountNone(ENABLED);
    CountNone(MANUALLY_DISABLED);
    CountNone(AUTO_DISABLED);
    var i := 0;
    while i < |keys|
      invariant 0 <= i <= |keys| && all == All(Records(row, parse))[..i]
      invariant enabled == |Filter(all, HasStatus(ENABLED))| && manual == |Filter(all, HasStatus(MANUALLY_DISABLED))|
      invariant auto == |Filter(all, HasStatus(AUTO_DISABLED))|
    {
      var status := StatusAt(row.status, i);
      match status {
        case 1 => enabled := enabled + 1;
        case 2 => manual := manual + 1;
        case 3 => auto := auto + 1;
        case _ =>
      }
      var time, reason := 0, "";
      if status != ENABLED {
        if i in row.time {
          time := row.time[i];
        }
        if i in row.reason {
          reason := row.reason[i];
        }
      }
      var preview := keys[i];
      if |preview| > PREVIEW {
        preview := preview[..PREVIEW] + "...";
      }
      var line := KeyStatus(i, status, time, reason, preview);
      CountNext(all, line, ENABLED);
      CountNext(all, line, MANUALLY_DISABLED);
      CountNext(all, line, AUTO_DISABLED);
      assert line == Describe(Records(row, parse)[i], i);
      all := all + [line];
      i := i + 1;
    }
  }

  lemma CountNone(status: int)
    ensures Filter([], HasStatus(status)) == []
  {
  }

  lemma CountNext(all: seq<KeyStatus>, line: KeyStatus, status: int)
    ensures |Filter(all + [line], HasStatus(status))|
         == |Filter(all, HasStatus(status))| + if line.status == status then 1 else 0
  {
    assert (all + [line])[..|all|] == all;
  }

  method Select(all: seq<KeyStatus>, status: int) returns (r: seq<KeyStatus>)
    ensures r == Filter(all, HasStatus(status))
  {
    r := [];
    var i := 0;
    while i < |all|
      invariant 0 <= i <= |all| && r == Filter(all[..i], HasStatus(status))
    {
      assert all[..i + 1][..i] == all[..i];
      if all[i].status == status {
        r := r + [all[i]];
      }
      i := i + 1;
    }
    assert all[..i] == all;
  }

  // ---------------------------------------------------------------------------
  // Properties of the view
  // ---------------------------------------------------------------------------

  function FirstPages<T>(xs: seq<T>, size: nat, p: nat): seq<T> {
    if p == 0 then [] else FirstPages(xs, size, p - 1) + Page(xs, size, p)
  }

  lemma {:induction false} FirstPagesPrefix<T>(xs: seq<T>, size: nat, p: nat)
    ensures FirstPages(xs, size, p) == xs[..Min(p * size, |xs|)]
  {
    if p > 0 {
      FirstPagesPrefix(xs, size, p - 1);
      assert p * size == (p - 1) * size + size;
    }
  }

  lemma PagesEnough(total: nat, size: nat)
    requires size > 0
    ensures Pages(total, size) * size >= total
    ensures total > 0 ==> (Pages(total, size) - 1) * size < total
  {
    var q := (total + size - 1) / size;
    assert q * size + (total + size - 1) % size == total + size - 1;
    assert (q - 1) * size == q * size - size;
  }

  lemma PageStarts(total: nat, size: nat, p: nat)
    requires size > 0 && 0 < p <= Pages(total, size)
    ensures total > 0 ==> (p - 1) * size < total
  {
    PagesEnough(total, size);
    Monotone(p - 1, Pages(total, size) - 1, size);
    hide Pages;
  }

  lemma Monotone(a: nat, b: nat, m: nat)
    requires a <= b
    ensures a * m <= b * m
  {
  }

  /** No page is longer than asked for, and none of a non-empty view is empty. */
  lemma PageShape<T>(xs: seq<T>, size: nat, p: nat)
    requires size > 0 && 0 < p <= Pages(|xs|, size)
    ensures |Page(xs, size, p)| <= size
    ensures Page(xs, size, p) == [] <==> xs == []
  {
    PageStarts(|xs|, size, p);
    hide Pages;
  }

  /** Reading page after page gives every line that passes the filter, once and in order. */
  lemma PagesCoverView<T>(xs: seq<T>, size: nat)
    requires size > 0
    ensures FirstPages(xs, size, Pages(|xs|, size)) == xs
  {
    PagesEnough(|xs|, size);
    FirstPagesPrefix(xs, size, Pages(|xs|, size));
    hide Pages, FirstPages;
  }

  /** The three counts are the totals of the three filtered views and add up to all keys. */
  lemma {:induction false} CountsAddUp(all: seq<KeyStatus>)
    requires forall i :: 0 <= i < |all| ==> all[i].status in {ENABLED, MANUALLY_DISABLED, AUTO_DISABLED}
    ensures |Filter(all, HasStatus(ENABLED))| + |Filter(all, HasStatus(MANUALLY_DISABLED))|
            + |Filter(all, HasStatus(AUTO_DISABLED))| == |all|
  {
    if all != [] {
      CountsAddUp(all[..|all| - 1]);
    }
  }
}
