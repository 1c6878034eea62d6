/** The equal-tempered note table (octaves 0 to 9, twelve pitch classes, A4 as
    reference) and the nearest-note lookup over it.

    A JavaScript object whose keys are not integer-like enumerates its keys in
    insertion order, so the table is an ordered sequence of entries rather than
    an unordered map. The frequency of a semitone offset from A4, in the source
    `440 * 2^(s/12)` rounded to two decimals in floating point, is a parameter
    of type `Tuning`; the properties that depend on it assume only what
    `IsEqualTempered` states. */
module Notes {

  const ReferenceFrequency: real := 440.0
  const NoteNames: seq<string> := ["C", "C#", "D", "D#", "E", "F", "F#", "G", "G#", "A", "A#", "B"]
  const OctaveCount: nat := 10
  const TableSize: nat := 120

  /** One own property of the note map: a note name and its frequency in Hz. */
  datatype NoteEntry = NoteEntry(name: string, frequency: real)

  /** Frequency (Hz) of the note `s` semitones above A4 (below, if negative). */
  type Tuning = int -> real

  /** Lowest and highest semitone offsets the table uses: C0 and B9. */
  const LowestOffset: int := -57
  const HighestOffset: int := 62

  /** What the model assumes of the rounded equal-tempered frequencies over the
      offsets the table uses: A4 is the reference frequency, every frequency is
      positive, and frequency rises strictly with the semitone offset. (Far
      outside that range the two-decimal rounding makes neighbours equal and
      values zero; the table never looks there.) */
  ghost predicate IsEqualTempered(pitch: Tuning)
  {
    && pitch(0) == ReferenceFrequency
    && (forall s :: LowestOffset <= s <= HighestOffset ==> pitch(s) > 0.0)
    && (forall s, t :: LowestOffset <= s < t <= HighestOffset ==> pitch(s) < pitch(t))
  }

  // ---------------------------------------------------------------------------
  // Note names
  // ---------------------------------------------------------------------------

  predicate IsDigit(c: char)
  {
    '0' <= c <= '9'
  }

  /** The decimal text of a natural number, as string concatenation produces it. */
  function Decimal(n: nat): (s: string)
    ensures 1 <= |s|
    ensures n >= 10 ==> 2 <= |s|
    ensures forall k :: 0 <= k < |s| ==> IsDigit(s[k])
  {
    if n < 10 then [('0' as int + n) as char]
    else Decimal(n / 10) + [('0' as int + n % 10) as char]
  }

  /** Different numbers have different decimal texts. */
  lemma {:induction false} DecimalInjective(m: nat, n: nat)
    requires Decimal(m) == Decimal(n)
    ensures m == n
  {
    if m >= 10 && n >= 10 {
      var dm, dn := Decimal(m), Decimal(n);
      assert dm[..|dm| - 1] == Decimal(m / 10);
      assert dn[..|dn| - 1] == Decimal(n / 10);
      DecimalInjective(m / 10, n / 10);
    }
  }

  /** Length of the longest prefix of `s` without a digit. */
  function LeadingNonDigits(s: string): (n: nat)
    ensures n <= |s|
  {
    if s == [] || IsDigit(s[0]) then 0 else 1 + LeadingNonDigits(s[1..])
  }

  /** A digit-free prefix followed by a digit is recovered by `LeadingNonDigits`. */
  lemma {:induction false} LeadingNonDigitsOf(p: string, d: string)
    requires forall k :: 0 <= k < |p| ==> !IsDigit(p[k])
    requires |d| >= 1 && IsDigit(d[0])
    ensures LeadingNonDigits(p + d) == |p|
  {
    if p != [] {
      assert (p + d)[1..] == p[1..] + d;
      LeadingNonDigitsOf(p[1..], d);
    }
  }

  /** The key for pitch class `pitchClass` in `octave`, e.g. "C#3". */
  function NoteName(octave: nat, pitchClass: nat): string
    requires pitchClass < |NoteNames|
  {
    NoteNames[pitchClass] + Decimal(octave)
  }

  /** A note name determines its octave and pitch class. */
  lemma NoteNameInjective(o1: nat, i1: nat, o2: nat, i2: nat)
    requires i1 < |NoteNames| && i2 < |NoteNames|
    requires NoteName(o1, i1) == NoteName(o2, i2)
    ensures o1 == o2 && i1 == i2
  {
    var p1, p2 := NoteNames[i1], NoteNames[i2];
    var s := NoteName(o1, i1);
    LeadingNonDigitsOf(p1, Decimal(o1));
    LeadingNonDigitsOf(p2, Decimal(o2));
    assert p1 == s[..|p1|] == p2;
    assert Decimal(o1) == s[|p1|..] == Decimal(o2);
    DecimalInjective(o1, o2);
  }

  // ---------------------------------------------------------------------------
  // Table construction
  // ---------------------------------------------------------------------------

  /** Semitone offset of (octave, pitch class) from A4. */
  function SemitonesFromA4(octave: nat, pitchClass: nat): int
  {
    pitchClass - 9 + (octave - 4) * 12
  }

  /** Assignment `map[name] = f` on a JavaScript object: an existing key keeps
      its position and takes the new value, a new key is appended at the end.
      Keys stay distinct. */
  function Assign(table: seq<NoteEntry>, name: string, f: real): (t: seq<NoteEntry>)
    ensures !HasName(table, name) ==> t == table + [NoteEntry(name, f)]
    ensures HasName(table, name) ==>
              exists i :: 0 <= i < |table| && table[i].name == name &&
                          (forall j :: 0 <= j < i ==> table[j].name != name) &&
                          t == table[i := NoteEntry(name, f)]
    ensures DistinctNames(table) ==> DistinctNames(t)
  {
    if table == [] then [NoteEntry(name, f)]
    else if table[0].name == name then [NoteEntry(name, f)] + table[1..]
    else
      var rest := Assign(table[1..], name, f);
      assert HasName(table[1..], name) ==> HasName(table, name);
      assert HasName(table, name) ==> HasName(table[1..], name) by {
        if HasName(table, name) {
          var j :| 0 <= j < |table| && table[j].name == name;
          assert table[1..][j - 1].name == name;
        }
      }
      [table[0]] + rest
  }

  ghost predicate HasName(table: seq<NoteEntry>, name: string)
  {
    exists j :: 0 <= j < |table| && table[j].name == name
  }

  /** No two entries share a key, as in any JavaScript object. */
  ghost predicate DistinctNames(table: seq<NoteEntry>)
  {
    forall j, k :: 0 <= j < k < |table| ==> table[j].name != table[k].name
  }

  /** Entry number `k` of the generated table (octave `k / 12`, pitch class `k % 12`). */
  function TableEntry(pitch: Tuning, k: nat): NoteEntry
  {
    var octave, pitchClass := k / 12, k % 12;
    NoteEntry(NoteName(octave, pitchClass), pitch(SemitonesFromA4(octave, pitchClass)))
  }

  /** The table `generateNoteFrequencies` returns, in insertion order. */
  function NoteTable(pitch: Tuning): (t: seq<NoteEntry>)
    ensures |t| == TableSize
  {
    seq(TableSize, k requires 0 <= k < TableSize => TableEntry(pitch, k))
  }

  /** Each (octave, pitch class) pair has its own entry, at position
      `12 * octave + pitchClass`, keyed by its note name. */
  lemma NoteTableEntry(pitch: Tuning, octave: nat, pitchClass: nat)
    requires octave < OctaveCount && pitchClass < |NoteNames|
    ensures 12 * octave + pitchClass < |NoteTable(pitch)|
    ensures NoteTable(pitch)[12 * octave + pitchClass]
              == NoteEntry(NoteName(octave, pitchClass), pitch(SemitonesFromA4(octave, pitchClass)))
  {
    var k := 12 * octave + pitchClass;
    assert k / 12 == octave && k % 12 == pitchClass;
  }

  /** The semitone offset rises by one per entry: entry `k` sits `k - 57`
      semitones from A4, from C0 (-57) to B9 (+62). */
  lemma NoteTableOffsets(pitch: Tuning, k: nat)
    requires k < TableSize
    ensures SemitonesFromA4(k / 12, k % 12) == k - 57
    ensures NoteTable(pitch)[k].frequency == pitch(k - 57)
  {
  }

  /** All 120 keys are different, so no assignment during construction
      overwrites an earlier entry. */
  lemma NoteTableDistinct(pitch: Tuning)
    ensures DistinctNames(NoteTable(pitch))
  {
    var t := NoteTable(pitch);
    forall j, k | 0 <= j < k < |t|
      ensures t[j].name != t[k].name
    {
      if t[j].name == t[k].name {
        NoteNameInjective(j / 12, j % 12, k / 12, k % 12);
      }
    }
  }

  /** Under an equal-tempered tuning the frequencies rise strictly along the
      table, and A4 is entry 57 with the reference frequency. */
  lemma NoteTableIncreasing(pitch: Tuning, j: nat, k: nat)
    requires IsEqualTempered(pitch)
    requires j < k < TableSize
    ensures NoteTable(pitch)[j].frequency < NoteTable(pitch)[k].frequency
  {
    NoteTableOffsets(pitch, j);
    NoteTableOffsets(pitch, k);
  }

  lemma NoteTableA4(pitch: Tuning)
    requires IsEqualTempered(pitch)
    ensures NoteTable(pitch)[57] == NoteEntry("A4", ReferenceFrequency)
  {
    NoteTableEntry(pitch, 4, 9);
  }

  /** `generateNoteFrequencies`: octaves 0 to 9 in the outer loop, pitch classes
      in the inner loop, one assignment per pair. */
  method GenerateNoteFrequencies(pitch: Tuning) returns (noteFrequencyMap: seq<NoteEntry>)
    ensures noteFrequencyMap == NoteTable(pitch)
    ensures |noteFrequencyMap| == TableSize && DistinctNames(noteFrequencyMap)
  {
    noteFrequencyMap := [];
    NoteTableDistinct(pitch);
    ghost var table := NoteTable(pitch);
    for octave := 0 to OctaveCount
      invariant noteFrequencyMap == table[..12 * octave]
    {
      for i := 0 to |NoteNames|
        invariant noteFrequencyMap == table[..12 * octave + i]
      {
        var semitonesFromA4 := i - 9 + (octave - 4) * 12;
        var frequency := pitch(semitonesFromA4);
        var noteName := NoteNames[i] + Decimal(octave);
        var k := 12 * octave + i;
        NoteTableEntry(pitch, octave, i);
        assert !HasName(noteFrequencyMap, noteName) by {
          forall j | 0 <= j < k ensures noteFrequencyMap[j].name != noteName {
            assert noteFrequencyMap[j] == table[j];
          }
        }
        noteFrequencyMap := Assign(noteFrequencyMap, noteName, frequency);
        assert table[..k + 1] == table[..k] + [table[k]];
      }
    }
  }

  // ---------------------------------------------------------------------------
  // Nearest-note lookup
  // ---------------------------------------------------------------------------

  function Abs(x: real): (a: real)
    ensures a >= 0.0 && (a == x || a == -x)
  {
    if x < 0.0 then -x else x
  }

  /** How far an entry's frequency is from the query. */
  function Distance(entry: NoteEntry, query: real): real
  {
    Abs(entry.frequency - query)
  }

  /** `k` is the first entry whose frequency is nearest to the query: none is
      nearer, and every earlier entry is strictly farther. */
  ghost predicate IsFirstClosest(table: seq<NoteEntry>, query: real, k: int)
  {
    && 0 <= k < |table|
    && (forall j :: 0 <= j < |table| ==> Distance(table[k], query) <= Distance(table[j], query))
    && (forall j :: 0 <= j < k ==> Distance(table[k], query) < Distance(table[j], query))
  }

  /** At most one entry is the first closest. */
  lemma FirstClosestUnique(table: seq<NoteEntry>, query: real, k1: int, k2: int)
    requires IsFirstClosest(table, query, k1) && IsFirstClosest(table, query, k2)
    ensures k1 == k2
  {
    var d1, d2 := Distance(table[k1], query), Distance(table[k2], query);
    assert d1 == d2;
  }

  /** Position of the first nearest entry, scanning left to right and replacing
      the best so far only on a strictly smaller distance. */
  function ClosestIndex(table: seq<NoteEntry>, query: real): (k: nat)
    requires |table| > 0
    ensures IsFirstClosest(table, query, k)
    decreases |table|
  {
    var n := |table| - 1;
    if n == 0 then 0
    else
      var best := ClosestIndex(table[..n], query);
      assert forall j :: 0 <= j < n ==> table[..n][j] == table[j];
      if Distance(table[n], query) < Distance(table[best], query) then n else best
  }

  /** `getClosestNoteFromFrequency` as a value: the empty string for an empty
      table, otherwise the key of the first nearest entry. */
  function ClosestNote(table: seq<NoteEntry>, query: real): (name: string)
    ensures table == [] ==> name == ""
    ensures table != [] ==> exists k :: IsFirstClosest(table, query, k) && name == table[k].name
  {
    if table == [] then "" else table[ClosestIndex(table, query)].name
  }

  /** The running minimum of the lookup loop; it starts at infinity. */
  datatype MinDifference = Infinity | Finite(value: real)
  {
    /** `diff < this`, where every real is below infinity. */
    predicate Exceeds(diff: real)
    {
      Infinity? || diff < value
    }
  }

  /** `getClosestNoteFromFrequency`: one pass over the entries in order. */
  method GetClosestNoteFromFrequency(frequency: real, noteFrequencyMap: seq<NoteEntry>)
    returns (closestNote: string)
    ensures noteFrequencyMap == [] ==> closestNote == ""
    ensures noteFrequencyMap != [] ==>
              exists k :: IsFirstClosest(noteFrequencyMap, frequency, k) && closestNote == noteFrequencyMap[k].name
    ensures closestNote == ClosestNote(noteFrequencyMap, frequency)
  {
    closestNote := "";
    var minDifference := Infinity;
    for j := 0 to |noteFrequencyMap|
      invariant j == 0 ==> closestNote == "" && minDifference == Infinity
      invariant j > 0 ==>
                  var best := ClosestIndex(noteFrequencyMap[..j], frequency);
                  closestNote == noteFrequencyMap[best].name &&
                  minDifference == Finite(Distance(noteFrequencyMap[best], frequency))
    {
      assert noteFrequencyMap[..j + 1][..j] == noteFrequencyMap[..j];
      var diff := Abs(noteFrequencyMap[j].frequency - frequency);
      if minDifference.Exceeds(diff) {
        minDifference := Finite(diff);
        closestNote := noteFrequencyMap[j].name;
      }
    }
    assert noteFrequencyMap[..|noteFrequencyMap|] == noteFrequencyMap;
  }

  /** Querying an entry's own frequency returns that entry's key, or the key of
      an earlier entry with the same frequency. */
  lemma ClosestToOwnFrequency(table: seq<NoteEntry>, k: nat)
    requires k < |table|
    ensures exists j :: 0 <= j <= k && table[j].frequency == table[k].frequency
                        && ClosestNote(table, table[k].frequency) == table[j].name
  {
    var c := ClosestIndex(table, table[k].frequency);
    assert Distance(table[k], table[k].frequency) == 0.0;
    assert c <= k;
  }

  /** In the generated table every frequency resolves to its own note. */
  lemma NoteTableRoundTrip(pitch: Tuning, k: nat)
    requires IsEqualTempered(pitch) && k < TableSize
    ensures ClosestNote(NoteTable(pitch), NoteTable(pitch)[k].frequency) == NoteTable(pitch)[k].name
  {
    var t := NoteTable(pitch);
    ClosestToOwnFrequency(t, k);
    var j :| 0 <= j <= k && t[j].frequency == t[k].frequency && ClosestNote(t, t[k].frequency) == t[j].name;
    if j < k {
      NoteTableIncreasing(pitch, j, k);
    }
  }

  /** The reference frequency resolves to "A4". */
  lemma ClosestToReference(pitch: Tuning)
    requires IsEqualTempered(pitch)
    ensures ClosestNote(NoteTable(pitch), ReferenceFrequency) == "A4"
  {
    NoteTableA4(pitch);
    NoteTableRoundTrip(pitch, 57);
  }

  /** Any query at or below the lowest frequency, zero Hz included, resolves to
      the lowest note "C0". */
  lemma ClosestBelowRange(pitch: Tuning, query: real)
    requires IsEqualTempered(pitch) && query <= pitch(-57)
    ensures ClosestNote(NoteTable(pitch), query) == "C0"
  {
    var t := NoteTable(pitch);
    NoteTableEntry(pitch, 0, 0);
    forall j | 0 < j < |t| ensures Distance(t[0], query) < Distance(t[j], query) {
      NoteTableIncreasing(pitch, 0, j);
    }
    FirstClosestUnique(t, query, 0, ClosestIndex(t, query));
  }

  lemma ClosestToZero(pitch: Tuning)
    requires IsEqualTempered(pitch)
    ensures ClosestNote(NoteTable(pitch), 0.0) == "C0"
  {
    ClosestBelowRange(pitch, 0.0);
  }
}
