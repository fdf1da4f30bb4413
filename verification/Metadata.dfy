/** utils/metadata.go: the string map with its `k=v` line format. */
module Metadata {
  import opened Listings
  import opened LastWrite

  /** The characters removed by Go's strings.TrimSpace. */
  predicate IsSpace(c: char) {
    || c in "\t\n\U{000b}\U{000c}\r "
    || c == '\U{0085}' || c == '\U{00a0}' || c == '\U{1680}'
    || '\U{2000}' <= c <= '\U{200a}'
    || c == '\U{2028}' || c == '\U{2029}' || c == '\U{202f}' || c == '\U{205f}' || c == '\U{3000}'
  }

  /** They are the code points with Unicode's White_Space property. */
  lemma SpaceCodes(c: char)
    ensures var n := c as int;
            IsSpace(c) <==>
              || 9 <= n <= 13 || n == 32 || n == 0x85 || n == 0xA0 || n == 0x1680 || 0x2000 <= n <= 0x200A
              || n == 0x2028 || n == 0x2029 || n == 0x202F || n == 0x205F || n == 0x3000
  {
  }

  function TrimLeft(s: string): string {
    if s != "" && IsSpace(s[0]) then TrimLeft(s[1..]) else s
  }

  function TrimRight(s: string): string {
    if s != "" && IsSpace(s[|s| - 1]) then TrimRight(s[..|s| - 1]) else s
  }

  function TrimSpace(s: string): string {
    TrimRight(TrimLeft(s))
  }

  predicate Trimmed(s: string) {
    s == "" || (!IsSpace(s[0]) && !IsSpace(s[|s| - 1]))
  }

  ghost predicate AllSpace(s: string) {
    forall c :: c in s ==> IsSpace(c)
  }

  /** TrimSpace cuts white space off both ends, and all of it. */
  lemma TrimSpaceCuts(s: string) returns (before: string, after: string)
    ensures s == before + TrimSpace(s) + after
    ensures AllSpace(before) && AllSpace(after)
    ensures Trimmed(TrimSpace(s))
  {
    before := TrimLeftCuts(s);
    after := TrimRightCuts(TrimLeft(s));
    assert TrimSpace(s) != "" ==> TrimSpace(s)[0] == TrimLeft(s)[0];
  }

  lemma {:induction false} TrimLeftCuts(s: string) returns (before: string)
    ensures s == before + TrimLeft(s) && AllSpace(before)
    ensures TrimLeft(s) == "" || !IsSpace(TrimLeft(s)[0])
  {
    if s != "" && IsSpace(s[0]) {
      var rest := TrimLeftCuts(s[1..]);
      before := [s[0]] + rest;
    } else {
      before := "";
    }
  }

  lemma {:induction false} TrimRightCuts(s: string) returns (after: string)
    ensures s == TrimRight(s) + after && AllSpace(after)
    ensures TrimRight(s) == "" || !IsSpace(TrimRight(s)[|TrimRight(s)| - 1])
  {
    if s != "" && IsSpace(s[|s| - 1]) {
      var rest := TrimRightCuts(s[..|s| - 1]);
      after := rest + [s[|s| - 1]];
    } else {
      after := "";
    }
  }

  /** Trimming changes nothing exactly on trimmed strings. */
  lemma TrimSpaceFixes(s: string)
    ensures TrimSpace(s) == s <==> Trimmed(s)
  {
    var _, _ := TrimSpaceCuts(s);
  }

  /** strings.Split(s, "="): the pieces between the separators. */
  function Split(s: string): (parts: seq<string>)
    ensures |parts| >= 1
  {
    if s == "" then [""]
    else
      var rest := Split(s[1..]);
      if s[0] == '=' then [""] + rest
      else [[s[0]] + rest[0]] + rest[1..]
  }

  function Join(parts: seq<string>): string
    requires |parts| >= 1
  {
    if |parts| == 1 then parts[0] else parts[0] + "=" + Join(parts[1..])
  }

  /** Splitting is inverted by joining, and no piece holds a separator. */
  lemma {:induction false} SplitPieces(s: string)
    ensures Join(Split(s)) == s
    ensures forall p :: p in Split(s) ==> '=' !in p
  {
    if s != "" {
      var rest := Split(s[1..]);
      SplitPieces(s[1..]);
      assert s == [s[0]] + s[1..];
      if s[0] == '=' {
        assert Split(s)[1..] == rest;
      } else {
        assert Split(s)[1..] == rest[1..];
        assert [s[0]] + Join(rest) == Join(Split(s));
      }
    }
  }

  /** A piece list without separators is what Split gives back for its join. */
  lemma {:induction false} SplitJoin(parts: seq<string>)
    requires |parts| >= 1
    requires forall p :: p in parts ==> '=' !in p
    ensures Split(Join(parts)) == parts
    decreases |Join(parts)|
  {
    var s := Join(parts);
    if parts[0] == "" {
      if |parts| > 1 {
        assert s == ['='] + Join(parts[1..]);
        assert s[1..] == Join(parts[1..]);
        SplitJoin(parts[1..]);
      }
    } else {
      var c, cut := parts[0][0], parts[0][1..];
      assert parts[0] == [c] + cut;
      assert c in parts[0];
      var shorter := [cut] + parts[1..];
      assert shorter[1..] == parts[1..];
      assert s == [c] + Join(shorter);
      assert s[1..] == Join(shorter);
      forall p | p in shorter ensures '=' !in p {
        if p == cut {
          assert forall x :: x in cut ==> x in parts[0];
        } else {
          assert p in parts;
        }
      }
      SplitJoin(shorter);
    }
  }

  type Entries = map<string, string>

  /** The line Strings() prints for one entry. */
  function Line(k: string, v: string): string {
    k + "=" + v
  }

  /** An entry whose line has exactly one separator. */
  predicate Free(k: string, v: string) {
    '=' !in k && '=' !in v
  }

  lemma {:induction false} SplitConcat(k: string, v: string)
    ensures Split(k + "=" + v) == Split(k) + Split(v)
  {
    var s := k + "=" + v;
    if k == "" {
      assert s[1..] == v;
    } else {
      assert s[1..] == k[1..] + "=" + v;
      SplitConcat(k[1..], v);
    }
  }

  lemma SplitOnce(s: string)
    ensures |Split(s)| == 1 <==> '=' !in s
  {
    SplitPieces(s);
    if |Split(s)| == 1 {
      assert Split(s)[0] == s;
    } else if '=' !in s {
      SplitJoin([s]);
    }
  }

  /** A line splits into exactly two parts when its entry holds no further separator. */
  lemma LineSplits(k: string, v: string)
    ensures Free(k, v) ==> Split(Line(k, v)) == [k, v]
    ensures |Split(Line(k, v))| == 2 <==> Free(k, v)
  {
    SplitConcat(k, v);
    SplitOnce(k);
    SplitOnce(v);
    SplitPieces(k);
    SplitPieces(v);
  }

  /** The assignment a line makes, if it has exactly two parts. */
  function LineWrites(line: string): seq<(string, string)> {
    var parts := Split(line);
    if |parts| == 2 then [(TrimSpace(parts[0]), TrimSpace(parts[1]))] else []
  }

  function AllWrites(lines: seq<string>): seq<(string, string)> {
    if lines == [] then [] else AllWrites(lines[..|lines| - 1]) + LineWrites(lines[|lines| - 1])
  }

  /** What MetadataFromStrings makes of a list of lines. */
  function Parse(lines: seq<string>): Entries {
    Writes(AllWrites(lines))
  }

  /** The line is one key and one value around a single separator; they are trimmed. */
  ghost predicate Sets(line: string, key: string, val: string) {
    exists k, v :: Free(k, v) && line == Line(k, v) && TrimSpace(k) == key && TrimSpace(v) == val
  }

  /** Some line sets the key to the value, and no later line sets the key. */
  ghost predicate LastSets(lines: seq<string>, key: string, val: string) {
    exists i :: 0 <= i < |lines| && Sets(lines[i], key, val) && SilentFrom(lines, i + 1, key)
  }

  ghost predicate SilentFrom(lines: seq<string>, i: nat, key: string) {
    forall j, w :: i <= j < |lines| ==> !Sets(lines[j], key, w)
  }

  lemma LineSets(line: string, key: string, val: string)
    ensures Sets(line, key, val) <==> LineWrites(line) == [(key, val)]
  {
    if k, v :| Free(k, v) && line == Line(k, v) && TrimSpace(k) == key && TrimSpace(v) == val {
      LineSplits(k, v);
    }
    if LineWrites(line) == [(key, val)] {
      SplitPieces(line);
      var parts := Split(line);
      assert line == Line(parts[0], parts[1]) && Free(parts[0], parts[1]);
    }
  }

  lemma LastSetsNext(lines: seq<string>, line: string, key: string, val: string)
    ensures LastSets(lines + [line], key, val) <==>
            Sets(line, key, val) || (LastSets(lines, key, val) && forall w :: !Sets(line, key, w))
  {
    hide Sets;
    var all, n := lines + [line], |lines|;
    assert all[n] == line && forall j :: 0 <= j < n ==> all[j] == lines[j];
    if Sets(line, key, val) {
      assert SilentFrom(all, n + 1, key);
    } else if LastSets(lines, key, val) && forall w :: !Sets(line, key, w) {
      var i :| 0 <= i < n && Sets(lines[i], key, val) && SilentFrom(lines, i + 1, key);
      assert Sets(all[i], key, val) && SilentFrom(all, i + 1, key);
    }
    if LastSets(all, key, val) && !Sets(line, key, val) {
      var i :| 0 <= i < |all| && Sets(all[i], key, val) && SilentFrom(all, i + 1, key);
      assert Sets(lines[i], key, val) && SilentFrom(lines, i + 1, key);
    }
  }

  lemma WritesConcat(a: seq<(string, string)>, b: seq<(string, string)>)
    requires |b| <= 1
    ensures Writes(a + b) == if b == [] then Writes(a) else Writes(a)[b[0].0 := b[0].1]
  {
    if b == [] {
      assert a + b == a;
    } else {
      assert (a + b)[..|a|] == a;
    }
  }

  /** For arbitrary lines: a key has the value that the last line setting it sets, and lines
      with no separator, or with more than one, do nothing. */
  lemma {:induction false} ParseLast(lines: seq<string>, key: string, val: string)
    ensures key in Parse(lines) && Parse(lines)[key] == val <==> LastSets(lines, key, val)
  {
    if lines != [] {
      var n := |lines| - 1;
      var init, line := lines[..n], lines[n];
      assert lines == init + [line];
      ParseLast(init, key, val);
      LastSetsNext(init, line, key, val);
      WritesConcat(AllWrites(init), LineWrites(line));
      forall w ensures Sets(line, key, w) <==> LineWrites(line) == [(key, w)] {
        LineSets(line, key, w);
      }
      hide Sets, LastSets, AllWrites, LineWrites;
    }
  }

  function Lines(order: seq<string>, md: Entries): (r: seq<string>)
    requires forall k :: k in order ==> k in md
    ensures |r| == |order|
    ensures forall i :: 0 <= i < |order| ==> r[i] == Line(order[i], md[order[i]])
  {
    seq(|order|, i requires 0 <= i < |order| => Line(order[i], md[order[i]]))
  }

  /** `w` is the trimmed form of a separator-free entry of `md`. */
  ghost predicate TrimmedEntry(md: Entries, k: string, w: (string, string)) {
    k in md && Free(k, md[k]) && w == (TrimSpace(k), TrimSpace(md[k]))
  }

  lemma {:induction false} LinesWrite(order: seq<string>, md: Entries)
    requires forall k :: k in order ==> k in md
    ensures forall w :: w in AllWrites(Lines(order, md)) ==> exists k :: k in order && TrimmedEntry(md, k, w)
    ensures forall k, w :: k in order && TrimmedEntry(md, k, w) ==> w in AllWrites(Lines(order, md))
  {
    if order != [] {
      var n := |order| - 1;
      LinesWrite(order[..n], md);
      LineSplits(order[n], md[order[n]]);
      assert Lines(order, md)[..n] == Lines(order[..n], md);
      assert forall k :: k in order <==> k in order[..n] || k == order[n];
    }
  }

  /** Two separator-free entries that collide after trimming, with different values. */
  ghost predicate Collide(md: Entries, k1: string, k2: string) {
    && k1 in md && k2 in md && Free(k1, md[k1]) && Free(k2, md[k2])
    && TrimSpace(k1) == TrimSpace(k2) && TrimSpace(md[k1]) != TrimSpace(md[k2])
  }

  ghost predicate NoCollision(md: Entries) {
    forall k1, k2 :: !Collide(md, k1, k2)
  }

  /** `r` is exactly the trimmed image of the separator-free entries of `md`. */
  ghost predicate IsTrimmedImage(md: Entries, r: Entries) {
    && (forall k :: k in md && Free(k, md[k]) ==> TrimSpace(k) in r && r[TrimSpace(k)] == TrimSpace(md[k]))
    && (forall key :: key in r ==> exists k :: k in md && Free(k, md[k]) && TrimSpace(k) == key)
  }

  /** Without a collision, every print order reads back as the trimmed image. */
  lemma TrimmedImage(md: Entries, order: seq<string>)
    requires Lists(order, md.Keys)
    requires NoCollision(md)
    ensures IsTrimmedImage(md, Parse(Lines(order, md)))
  {
    var ws := AllWrites(Lines(order, md));
    LinesWrite(order, md);
    forall v, w | v in ws && w in ws && v.0 == w.0 ensures v.1 == w.1 {
      var k1 :| k1 in order && TrimmedEntry(md, k1, v);
      var k2 :| k2 in order && TrimmedEntry(md, k2, w);
      assert !Collide(md, k1, k2);
    }
    ConsistentWrites(ws);
    forall k | k in md && Free(k, md[k])
      ensures TrimSpace(k) in Writes(ws) && Writes(ws)[TrimSpace(k)] == TrimSpace(md[k])
    {
      assert TrimmedEntry(md, k, (TrimSpace(k), TrimSpace(md[k])));
    }
  }

  ghost predicate OrderIrrelevant(md: Entries) {
    forall o1, o2 :: Lists(o1, md.Keys) && Lists(o2, md.Keys) ==> Parse(Lines(o1, md)) == Parse(Lines(o2, md))
  }

  /** The map read back is independent of Go's iteration order exactly when no two
      separator-free entries collide after trimming. */
  lemma OrderIrrelevantIff(md: Entries)
    ensures OrderIrrelevant(md) <==> NoCollision(md)
  {
    if k1, k2 :| Collide(md, k1, k2) {
      var o1 := EndingIn(md, k1);
      var o2 := EndingIn(md, k2);
      assert Parse(Lines(o1, md)) != Parse(Lines(o2, md));
    } else {
      forall o1, o2 | Lists(o1, md.Keys) && Lists(o2, md.Keys)
        ensures Parse(Lines(o1, md)) == Parse(Lines(o2, md))
      {
        TrimmedImage(md, o1);
        TrimmedImage(md, o2);
        ImageUnique(md, Parse(Lines(o1, md)), Parse(Lines(o2, md)));
      }
    }
  }

  lemma ImageUnique(md: Entries, r1: Entries, r2: Entries)
    requires IsTrimmedImage(md, r1) && IsTrimmedImage(md, r2)
    ensures r1 == r2
  {
    assert r1.Keys == r2.Keys;
  }

  /** Printed last, a separator-free entry decides the value of its trimmed key. */
  lemma EndingIn(md: Entries, k: string) returns (order: seq<string>)
    requires k in md
    ensures Lists(order, md.Keys)
    ensures Free(k, md[k]) ==>
              var r := Parse(Lines(order, md)); TrimSpace(k) in r && r[TrimSpace(k)] == TrimSpace(md[k])
  {
    var rest := ListingExists(md.Keys - {k});
    order := rest + [k];
    LineSplits(k, md[k]);
    var lines := Lines(order, md);
    assert lines == lines[..|rest|] + [Line(k, md[k])];
    var ws := AllWrites(lines);
    if Free(k, md[k]) {
      assert ws[|ws| - 1] == (TrimSpace(k), TrimSpace(md[k]));
    }
  }

  /** No separator anywhere, nothing to trim. */
  ghost predicate Clean(md: Entries) {
    forall k :: k in md ==> Free(k, md[k]) && Trimmed(k) && Trimmed(md[k])
  }

  lemma PieceIsClean(p: string)
    requires '=' !in p
    ensures '=' !in TrimSpace(p) && Trimmed(TrimSpace(p))
  {
    var before, after := TrimSpaceCuts(p);
    assert forall c :: c in TrimSpace(p) ==> c in before + TrimSpace(p) + after;
  }

  lemma {:induction false} WritesAreClean(lines: seq<string>)
    ensures forall w :: w in AllWrites(lines) ==> Free(w.0, w.1) && Trimmed(w.0) && Trimmed(w.1)
  {
    if lines != [] {
      var line := lines[|lines| - 1];
      WritesAreClean(lines[..|lines| - 1]);
      SplitPieces(line);
      if |Split(line)| == 2 {
        PieceIsClean(Split(line)[0]);
        PieceIsClean(Split(line)[1]);
      }
    }
  }

  /** Metadata round trip: whatever the order, printing and reading back restores the
      map exactly when the map is clean. */
  lemma RoundTripIff(md: Entries, order: seq<string>)
    requires Lists(order, md.Keys)
    ensures Parse(Lines(order, md)) == md <==> Clean(md)
  {
    var r := Parse(Lines(order, md));
    WritesAreClean(Lines(order, md));
    WritesKeys(AllWrites(Lines(order, md)));
    assert Clean(r) by {
      forall k | k in r ensures Free(k, r[k]) && Trimmed(k) && Trimmed(r[k]) {
        assert (k, r[k]) in AllWrites(Lines(order, md));
      }
    }
    if Clean(md) {
      forall k | k in md ensures TrimSpace(k) == k && TrimSpace(md[k]) == md[k] {
        TrimSpaceFixes(k);
        TrimSpaceFixes(md[k]);
      }
      TrimmedImage(md, order);
      ImageUnique(md, r, md);
    }
  }

  /** Metadata.Strings */
  method Strings(md: Entries) returns (ret: seq<string>)
    ensures exists order :: Lists(order, md.Keys) && ret == Lines(order, md)
  {
    var order := AnyOrder(md.Keys);
    ret := [];
    for i := 0 to |order|
      invariant ret == Lines(order[..i], md)
    {
      ret := ret + [order[i] + "=" + md[order[i]]];
    }
    assert order[..|order|] == order;
  }

  /** MetadataFromStrings */
  method FromStrings(lines: seq<string>) returns (ret: Entries)
    ensures ret == Parse(lines)
    ensures forall key, val :: key in ret && ret[key] == val <==> LastSets(lines, key, val)
  {
    ret := map[];
    for i := 0 to |lines|
      invariant ret == Parse(lines[..i])
    {
      assert lines[..i + 1][..i] == lines[..i];
      var parts := Split(lines[i]);
      WritesConcat(AllWrites(lines[..i]), LineWrites(lines[i]));
      assert AllWrites(lines[..i + 1]) == AllWrites(lines[..i]) + LineWrites(lines[i]);
      if |parts| == 2 {
        ret := ret[TrimSpace(parts[0]) := TrimSpace(parts[1])];
      }
    }
    assert lines[..|lines|] == lines;
    forall key, val ensures key in ret && ret[key] == val <==> LastSets(lines, key, val) {
      ParseLast(lines, key, val);
    }
  }

  /** Print, then read back: the two methods are inverse exactly on clean maps. */
  method PrintAndParse(md: Entries) returns (back: Entries)
    ensures back == md <==> Clean(md)
    ensures NoCollision(md) ==> IsTrimmedImage(md, back)
  {
    var lines := Strings(md);
    ghost var order :| Lists(order, md.Keys) && lines == Lines(order, md);
    back := FromStrings(lines);
    RoundTripIff(md, order);
    if NoCollision(md) {
      TrimmedImage(md, order);
    }
  }

  /** `done` holds the entries of `source` under the first i keys of `order`. */
  ghost predicate Merging(source: Entries, done: Entries, order: seq<string>, i: nat) {
    && Lists(order, source.Keys) && i <= |order|
    && (forall k :: k in done <==> k in order[..i])
    && (forall k :: k in done ==> k in source && done[k] == source[k])
  }

  lemma NothingMerged(own: Entries, source: Entries, order: seq<string>)
    requires Lists(order, source.Keys)
    ensures Merging(source, map[], order, 0) && own + map[] == own
  {
  }

  lemma NextMerged(own: Entries, source: Entries, done: Entries, order: seq<string>, i: nat)
    requires i < |order| && Merging(source, done, order, i)
    ensures order[i] in source && Merging(source, done[order[i] := source[order[i]]], order, i + 1)
    ensures (own + done)[order[i] := source[order[i]]] == own + done[order[i] := source[order[i]]]
    ensures own == source ==> order[i] in own + done && (own + done)[order[i]] == source[order[i]]
  {
    assert order[..i + 1] == order[..i] + [order[i]];
  }

  lemma AllMerged(source: Entries, done: Entries, order: seq<string>)
    requires Merging(source, done, order, |order|)
    ensures done == source
  {
    assert order[..|order|] == order;
  }

  /** The map object itself: Go maps are references, so copying is what protects the
      original from later Set calls. */
  class Table {
    var entries: Entries

    constructor ()
      ensures entries == map[]
    {
      entries := map[];
    }

    method Set(key: string, val: string)
      modifies this
      ensures entries == old(entries)[key := val]
    {
      entries := entries[key := val];
    }

    /** Later entries win; `other` may be this very table. */
    method Merge(other: Table)
      modifies this
      ensures entries == old(entries) + old(other.entries)
      ensures other != this ==> other.entries == old(other.entries)
    {
      var order := AnyOrder(other.entries.Keys);
      ghost var own, source, done: Entries := entries, other.entries, map[];
      NothingMerged(own, source, order);
      hide Merging;
      for i := 0 to |order|
        invariant other != this ==> other.entries == source
        invariant entries == own + done && Merging(source, done, order, i)
      {
        NextMerged(own, source, done, order, i);
        Set(order[i], other.entries[order[i]]);
        done := done[order[i] := source[order[i]]];
      }
      AllMerged(source, done, order);
    }

    method Clone() returns (copy: Table)
      ensures fresh(copy)
      ensures copy.entries == entries
    {
      copy := new Table();
      var order := AnyOrder(entries.Keys);
      for i := 0 to |order|
        invariant fresh(copy) && copy != this
        invariant copy.entries.Keys == set k | k in order[..i]
        invariant forall k :: k in copy.entries ==> copy.entries[k] == entries[k]
      {
        assert order[..i + 1] == order[..i] + [order[i]];
        copy.entries := copy.entries[order[i] := entries[order[i]]];
      }
      assert order[..|order|] == order;
    }
  }
}
