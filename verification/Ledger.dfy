/** The hash-chained ledger (apohara_context_forge/observability/ledger.py). A file is its
    sequence of lines, the last of which may lack its newline; the hash, the canonical form of
    a payload and what writing and parsing make of a payload are parameters. */
module Ledger {
  import opened Wrappers

  /** "0" * 64 */
  const GENESIS: string := Repeat('0', 64)

  function Repeat(c: char, n: nat): (s: string)
    ensures |s| == n && forall i :: 0 <= i < n ==> s[i] == c
  {
    if n == 0 then "" else Repeat(c, n - 1) + [c]
  }

  ghost predicate Zeros(s: string) {
    |s| == 64 && forall i :: 0 <= i < 64 ==> s[i] == '0'
  }

  lemma GenesisIsZeros()
    ensures Zeros(GENESIS)
  {
  }

  /** A field of a parsed line: absent, a string, or some other JSON value. */
  datatype Field = Missing | Text(text: string) | NotText

  /** A line: empty after stripping, not a JSON object, or an object with its three fields. */
  datatype Line<P> = Blank | Malformed | Entry(prevHash: Field, entryHash: Field, payload: Option<P>)

  /** A ledger file: its lines, and whether the last one ends with a newline. */
  datatype File<P> = File(lines: seq<Line<P>>, terminated: bool) {
    /** Whether text written at the end starts a line of its own, if only after white space. */
    predicate Clean() {
      terminated || lines == [] || lines[|lines| - 1].Blank?
    }

    /** The line that text written at the end goes to. */
    function Next(): nat {
      if terminated || lines == [] then |lines| else |lines| - 1
    }

    /** Writes an entry and a newline at the end. Behind an unterminated line that is not blank
        the two together no longer parse. */
    function Write(entry: Line<P>): File<P> {
      File(lines[..Next()] + [if Clean() then entry else Malformed], true)
    }
  }

  datatype Report = Report(valid: bool, entries: nat, brokenAt: Option<nat>, head: string)

  /** The hash function and the canonical form the chain is built with, and the payload that
      json.loads returns for one that json.dumps wrote, which need not be the same. */
  datatype Scheme<!P> = Scheme(hash: string -> string, canonical: P -> string, reload: P -> P) {

    function EntryHash(prev: string, payload: P): string {
      hash(prev + canonical(payload))
    }

    function NewEntry(prev: string, payload: P): Line<P> {
      Entry(Text(prev), Text(EntryHash(prev, payload)), Some(payload))
    }

    /** The line as it is read back from the file. */
    function Reread(line: Line<P>): Line<P> {
      if line.Entry? && line.payload.Some? then line.(payload := Some(reload(line.payload.value))) else line
    }

    /** Writing and parsing keep what the payload is hashed by. */
    predicate SurvivesReload(payload: P) {
      canonical(reload(payload)) == canonical(payload)
    }

    predicate Collide(x: string, y: string) {
      x != y && hash(x) == hash(y)
    }

    /** The entry hash is the same for the payload as given and as read back: the canonical
        form survives, or the two inputs collide. */
    predicate Reproduces(prev: string, payload: P) {
      SurvivesReload(payload) || Collide(prev + canonical(payload), prev + canonical(reload(payload)))
    }

    predicate Continues(line: Line<P>, prev: string) {
      && line.Entry? && line.payload.Some?
      && line.prevHash == Text(prev) && line.entryHash == Text(EntryHash(prev, line.payload.value))
    }

    /** The head of the chain through all lines, None once a line does not continue it. */
    ghost function Chain(lines: seq<Line<P>>): Option<string> {
      if lines == [] then Some(GENESIS) else
        var n := |lines| - 1;
        var before := Chain(lines[..n]);
        if before.None? || lines[n].Blank? then before
        else if Continues(lines[n], before.value) then Some(lines[n].entryHash.text)
        else None
    }

    ghost predicate Intact(lines: seq<Line<P>>) {
      Chain(lines).Some?
    }

    /** The first line that breaks the chain. */
    ghost predicate BreaksAt(lines: seq<Line<P>>, i: nat) {
      i < |lines| && Intact(lines[..i]) && !Intact(lines[..i + 1])
    }

    ghost function NonBlank(lines: seq<Line<P>>): nat {
      if lines == [] then 0 else NonBlank(lines[..|lines| - 1]) + if lines[|lines| - 1].Blank? then 0 else 1
    }

    /** The recorded payloads, in order. */
    ghost function Payloads(lines: seq<Line<P>>): seq<P> {
      if lines == [] then [] else
        var n := |lines| - 1;
        Payloads(lines[..n]) + if lines[n].Entry? && lines[n].payload.Some? then [lines[n].payload.value] else []
    }

    /** The head that a history of payloads has, whatever file records it. */
    ghost function Digest(ps: seq<P>): string {
      if ps == [] then GENESIS else EntryHash(Digest(ps[..|ps| - 1]), ps[|ps| - 1])
    }

    /** What was hashed for payload i of a history. */
    ghost function Input(ps: seq<P>, i: nat): string
      requires i < |ps|
    {
      Digest(ps[..i]) + canonical(ps[i])
    }

    ghost function Canonicals(ps: seq<P>): seq<string> {
      if ps == [] then [] else Canonicals(ps[..|ps| - 1]) + [canonical(ps[|ps| - 1])]
    }

    // ----- the chain

    lemma {:induction false} IntactPrefix(lines: seq<Line<P>>, i: nat)
      requires i <= |lines| && Intact(lines)
      ensures Intact(lines[..i])
    {
      if i < |lines| {
        var n := |lines| - 1;
        IntactPrefix(lines[..n], i);
        assert lines[..n][..i] == lines[..i];
      } else {
        assert lines[..i] == lines;
      }
    }

    lemma PrefixesIntact(lines: seq<Line<P>>, j: nat, i: nat)
      requires i <= j <= |lines|
      ensures Intact(lines[..j]) ==> Intact(lines[..i])
    {
      if Intact(lines[..j]) {
        IntactPrefix(lines[..j], i);
        assert lines[..j][..i] == lines[..i];
      }
    }

    /** Not intact means broken at exactly one line, before which everything verifies. */
    lemma {:induction false} BrokenSomewhere(lines: seq<Line<P>>) returns (i: nat)
      requires !Intact(lines)
      ensures BreaksAt(lines, i) && forall j: nat :: BreaksAt(lines, j) ==> j == i
    {
      var n := |lines| - 1;
      assert lines[..n + 1] == lines;
      if Intact(lines[..n]) {
        i := n;
      } else {
        i := BrokenSomewhere(lines[..n]);
        assert lines[..n][..i] == lines[..i] && lines[..n][..i + 1] == lines[..i + 1];
      }
      forall j: nat | BreaksAt(lines, j) ensures j == i {
        if j < i {
          PrefixesIntact(lines, i, j + 1);
        } else if i < j {
          PrefixesIntact(lines, j, i + 1);
        }
      }
    }

    lemma StopsAt(lines: seq<Line<P>>, i: nat)
      requires i < |lines| && Intact(lines[..i]) && !lines[i].Blank?
      requires !Continues(lines[i], Chain(lines[..i]).value)
      ensures BreaksAt(lines, i) && !Intact(lines)
    {
      assert lines[..i + 1][..i] == lines[..i];
      if Intact(lines) {
        IntactPrefix(lines, i + 1);
      }
    }

    /** The head of an intact file is the digest of the payloads it records, one per line
        that is not blank. */
    lemma {:induction false} HeadIsDigest(lines: seq<Line<P>>)
      requires Intact(lines)
      ensures Chain(lines) == Some(Digest(Payloads(lines)))
      ensures |Payloads(lines)| == NonBlank(lines)
    {
      if lines != [] {
        var n := |lines| - 1;
        HeadIsDigest(lines[..n]);
        if !lines[n].Blank? {
          var ps := Payloads(lines[..n]);
          assert (ps + [lines[n].payload.value])[..|ps|] == ps;
        } else {
          assert Payloads(lines) == Payloads(lines[..n]);
        }
      }
    }

    /** The value _last_hash stops with: the last entry_hash of any parseable object. */
    ghost function LastHash(lines: seq<Line<P>>): Field {
      if lines == [] then Text(GENESIS) else
        var n := |lines| - 1;
        if lines[n].Entry? && lines[n].entryHash != Missing then lines[n].entryHash else LastHash(lines[..n])
    }

    predicate HasHash(line: Line<P>) {
      line.Entry? && line.entryHash != Missing
    }

    /** In any file, intact or not, it is the entry_hash of the last object that has one, and 64
        zeros if there is none. */
    ghost predicate IsLastHash(lines: seq<Line<P>>, last: Field) {
      || (exists i :: 0 <= i < |lines| && LastWithHash(lines, i) && last == lines[i].entryHash)
      || ((forall i :: 0 <= i < |lines| ==> !HasHash(lines[i])) && last.Text? && Zeros(last.text))
    }

    ghost predicate LastWithHash(lines: seq<Line<P>>, i: nat)
      requires i < |lines|
    {
      HasHash(lines[i]) && forall j :: i < j < |lines| ==> !HasHash(lines[j])
    }

    lemma {:induction false} LastHashIs(lines: seq<Line<P>>)
      ensures IsLastHash(lines, LastHash(lines))
    {
      if lines == [] {
        GenesisIsZeros();
      } else {
        var n := |lines| - 1;
        if HasHash(lines[n]) {
          assert LastWithHash(lines, n);
        } else {
          LastHashIs(lines[..n]);
          NotTheLast(lines, LastHash(lines[..n]));
        }
      }
    }

    lemma NotTheLast(lines: seq<Line<P>>, last: Field)
      requires lines != [] && !HasHash(lines[|lines| - 1]) && IsLastHash(lines[..|lines| - 1], last)
      ensures IsLastHash(lines, last)
    {
      var before := lines[..|lines| - 1];
      assert forall i :: 0 <= i < |before| ==> before[i] == lines[i];
      if i :| 0 <= i < |before| && LastWithHash(before, i) && last == before[i].entryHash {
        assert LastWithHash(lines, i);
      }
    }

    lemma {:induction false} LastHashIsHead(lines: seq<Line<P>>)
      requires Intact(lines)
      ensures LastHash(lines) == Text(Chain(lines).value)
    {
      if lines != [] {
        LastHashIsHead(lines[..|lines| - 1]);
      }
    }

    lemma LastHashUnique(lines: seq<Line<P>>, a: Field, b: Field)
      requires IsLastHash(lines, a) && IsLastHash(lines, b)
      ensures a == b
    {
      if exists i :: 0 <= i < |lines| && HasHash(lines[i]) {
        var i :| 0 <= i < |lines| && LastWithHash(lines, i) && a == lines[i].entryHash;
        var j :| 0 <= j < |lines| && LastWithHash(lines, j) && b == lines[j].entryHash;
        assert i == j;
      } else {
        assert a.text == b.text;
      }
    }

    /** Line i is an entry whose prev_hash is the last hash before it, or 64 zeros, and whose
        entry_hash is the hash of its prev_hash followed by its payload. */
    ghost predicate Linked(lines: seq<Line<P>>, i: nat)
      requires i < |lines|
    {
      var line := lines[i];
      && line.Entry? && line.payload.Some? && line.prevHash.Text? && IsLastHash(lines[..i], line.prevHash)
      && line.entryHash == Text(hash(line.prevHash.text + canonical(line.payload.value)))
    }

    ghost predicate AllLinked(lines: seq<Line<P>>) {
      forall i :: 0 <= i < |lines| ==> lines[i].Blank? || Linked(lines, i)
    }

    /** Intact means that every line that is not blank links to what comes before it. */
    lemma {:induction false} IntactIff(lines: seq<Line<P>>)
      ensures Intact(lines) <==> AllLinked(lines)
    {
      if lines != [] {
        var n := |lines| - 1;
        var before := lines[..n];
        IntactIff(before);
        LinksOfPrefix(lines, before);
        if Intact(before) {
          LastHashIs(before);
          LastHashIsHead(before);
          if lines[n].Entry? && IsLastHash(before, lines[n].prevHash) {
            LastHashUnique(before, lines[n].prevHash, LastHash(before));
          }
        }
      }
    }

    lemma LinksOfPrefix(lines: seq<Line<P>>, before: seq<Line<P>>)
      requires lines != [] && before == lines[..|lines| - 1]
      ensures var n := |lines| - 1; AllLinked(lines) <==> AllLinked(before) && (lines[n].Blank? || Linked(lines, n))
    {
      forall i | 0 <= i < |before| ensures before[i] == lines[i] && (Linked(before, i) <==> Linked(lines, i)) {
        assert before[..i] == lines[..i];
      }
    }

    lemma ReproducesIsSameHash(prev: string, payload: P)
      ensures Reproduces(prev, payload) <==> EntryHash(prev, reload(payload)) == EntryHash(prev, payload)
    {
      var x, y := canonical(payload), canonical(reload(payload));
      if prev + x == prev + y {
        SplitInput(prev, x, prev, y);
      }
    }

    /** Adding a line to an intact chain keeps it intact exactly when the payload survives being
        written and parsed, or collides with what it became. Otherwise the new line breaks. */
    lemma LineKeepsIntact(lines: seq<Line<P>>, payload: P)
      requires Intact(lines)
      ensures LastHash(lines).Text?
      ensures var prev := LastHash(lines).text;
              var longer := lines + [Reread(NewEntry(prev, payload))];
              && (Intact(longer) <==> Reproduces(prev, payload))
              && (!Intact(longer) ==> BreaksAt(longer, |lines|))
              && Payloads(longer) == Payloads(lines) + [reload(payload)]
              && (Intact(longer) ==> Chain(longer) == Some(EntryHash(prev, payload)))
    {
      LastHashIsHead(lines);
      var prev := LastHash(lines).text;
      var longer := lines + [Reread(NewEntry(prev, payload))];
      assert longer[..|lines|] == lines && longer[..|lines| + 1] == longer;
      ReproducesIsSameHash(prev, payload);
    }

    /** What an append leaves of a file, nothing being written when the last hash is not text. */
    ghost function AppendTo(file: File<P>, payload: P): File<P> {
      match LastHash(file.lines)
      case Text(prev) => file.Write(Reread(NewEntry(prev, payload)))
      case _ => file
    }

    /** An append to an intact ledger keeps it intact exactly when the file ends with a newline,
        or at least not within a line, and the payload is hashed the same when it is read back.
        Otherwise the line written to is the break. */
    lemma AppendKeepsIntact(file: File<P>, payload: P)
      requires Intact(file.lines)
      ensures LastHash(file.lines).Text?
      ensures var prev, after := LastHash(file.lines).text, AppendTo(file, payload);
              && after.terminated && |after.lines| == file.Next() + 1
              && (Intact(after.lines) <==> file.Clean() && Reproduces(prev, payload))
              && (!Intact(after.lines) ==> BreaksAt(after.lines, file.Next()))
              && (file.Clean() ==> Payloads(after.lines) == Payloads(file.lines) + [reload(payload)])
              && (Intact(after.lines) ==> Chain(after.lines) == Some(EntryHash(prev, payload)))
    {
      LastHashIsHead(file.lines);
      var kept, after := file.lines[..file.Next()], AppendTo(file, payload);
      IntactPrefix(file.lines, file.Next());
      assert after.lines[..file.Next()] == kept && after.lines[..file.Next() + 1] == after.lines;
      if file.Clean() {
        SameWithoutBlank(file);
        LineKeepsIntact(kept, payload);
      }
    }

    /** A blank last line adds nothing. */
    lemma SameWithoutBlank(file: File<P>)
      requires file.Clean()
      ensures var kept := file.lines[..file.Next()];
              && Chain(kept) == Chain(file.lines) && Payloads(kept) == Payloads(file.lines)
              && LastHash(kept) == LastHash(file.lines)
    {
      if file.Next() == |file.lines| {
        assert file.lines[..file.Next()] == file.lines;
      }
    }

    /** No append to a broken ledger repairs the break or moves it. */
    lemma AppendKeepsBreak(file: File<P>, payload: P, i: nat)
      requires BreaksAt(file.lines, i)
      ensures var after := AppendTo(file, payload).lines; BreaksAt(after, i) && !Intact(after)
    {
      var after := AppendTo(file, payload).lines;
      if i < file.Next() {
        assert file.lines[..file.Next()][..i + 1] == file.lines[..i + 1];
        assert after[..i] == file.lines[..i] && after[..i + 1] == file.lines[..i + 1];
      } else {
        BreakIsNotBlank(file.lines, i);
        assert after[..i] == file.lines[..i];
        if LastHash(file.lines).Text? {
          assert after[..i + 1][..i] == file.lines[..i] && after[..i + 1][i] == Malformed;
        }
      }
      if Intact(after) {
        IntactPrefix(after, i + 1);
      }
    }

    lemma BreakIsNotBlank(lines: seq<Line<P>>, i: nat)
      requires BreaksAt(lines, i)
      ensures !lines[i].Blank?
    {
      assert lines[..i + 1][..i] == lines[..i];
    }

    // ----- tamper evidence

    /** What two histories with one head come down to. */
    ghost predicate Shows(e: Evidence, ps: seq<P>, qs: seq<P>) {
      match e
      case SameHistory =>
        |ps| == |qs| && forall i :: 0 <= i < |ps| ==> canonical(ps[i]) == canonical(qs[i])
      case Collision(i, j) =>
        && i < |ps| && j < |qs| && |ps| - i == |qs| - j
        && Input(ps, i) != Input(qs, j) && hash(Input(ps, i)) == hash(Input(qs, j))
      case GenesisOf(first, i) =>
        var h := if first then ps else qs;
        i < |h| && |ps| != |qs| && hash(Input(h, i)) == GENESIS
    }

    lemma DigestLength(ps: seq<P>)
      requires forall s :: |hash(s)| == 64
      ensures |Digest(ps)| == 64
    {
    }

    lemma SplitInput(a: string, b: string, c: string, d: string)
      requires |a| == |c| && a + b == c + d
      ensures a == c && b == d
    {
      assert a == (a + b)[..|a|] && c == (c + d)[..|c|];
      assert b == (a + b)[|a|..] && d == (c + d)[|c|..];
    }

    lemma InputOfPrefix(ps: seq<P>, m: nat, i: nat)
      requires i < m <= |ps|
      ensures Input(ps[..m], i) == Input(ps, i)
    {
      assert ps[..m][..i] == ps[..i];
    }

    /** Two histories with one head are the same history, or two of their own inputs collide
        under the hash, or, when their lengths differ, one input hashes to the genesis value. */
    lemma {:induction false} SameHeadSameHistory(ps: seq<P>, qs: seq<P>) returns (e: Evidence)
      requires Digest(ps) == Digest(qs) && forall s :: |hash(s)| == 64
      ensures Shows(e, ps, qs)
    {
      var m, n := |ps| - 1, |qs| - 1;
      if ps == [] && qs == [] {
        e := SameHistory;
      } else if ps == [] {
        e := GenesisOf(false, n);
      } else if qs == [] {
        e := GenesisOf(true, m);
      } else if Input(ps, m) != Input(qs, n) {
        e := Collision(m, n);
      } else {
        DigestLength(ps[..m]);
        DigestLength(qs[..n]);
        SplitInput(Digest(ps[..m]), canonical(ps[m]), Digest(qs[..n]), canonical(qs[n]));
        e := SameHeadSameHistory(ps[..m], qs[..n]);
        match e {
          case SameHistory =>
            assert forall i :: 0 <= i < m ==> ps[i] == ps[..m][i] && qs[i] == qs[..m][i];
          case Collision(i, j) =>
            InputOfPrefix(ps, m, i);
            InputOfPrefix(qs, n, j);
          case GenesisOf(first, i) =>
            InputOfPrefix(if first then ps else qs, if first then m else n, i);
        }
      }
    }
  }

  /** Why two histories have one head: they are the same, inputs i and j collide, or input i
      of the first or second hashes to the genesis value. */
  datatype Evidence = SameHistory | Collision(i: nat, j: nat) | GenesisOf(first: bool, i: nat)

  /** Two files that both verify with the same head record the same payloads, or their own
      lines exhibit a collision or a preimage of the genesis value. */
  lemma VerifiedFilesAgree<P>(scheme: Scheme<P>, a: seq<Line<P>>, b: seq<Line<P>>) returns (e: Evidence)
    requires scheme.Intact(a) && scheme.Intact(b) && scheme.Chain(a) == scheme.Chain(b)
    requires forall s :: |scheme.hash(s)| == 64
    ensures scheme.Shows(e, scheme.Payloads(a), scheme.Payloads(b))
    ensures scheme.NonBlank(a) == scheme.NonBlank(b) ==> !e.GenesisOf?
  {
    scheme.HeadIsDigest(a);
    scheme.HeadIsDigest(b);
    e := scheme.SameHeadSameHistory(scheme.Payloads(a), scheme.Payloads(b));
  }

  class LedgerFile<P> {
    const scheme: Scheme<P>
    var file: File<P>

    constructor (scheme: Scheme<P>, file: File<P>)
      ensures this.scheme == scheme && this.file == file
    {
      this.scheme, this.file := scheme, file;
    }

    method ReadLastHash() returns (last: Field)
      ensures last == scheme.LastHash(file.lines) && scheme.IsLastHash(file.lines, last)
    {
      scheme.LastHashIs(file.lines);
      var lines := file.lines;
      last := Text(GENESIS);
      for i := 0 to |lines|
        invariant last == scheme.LastHash(lines[..i])
      {
        assert lines[..i + 1][..i] == lines[..i];
        var line := lines[i];
        if line.Entry? && line.entryHash != Missing {
          last := line.entryHash;
        }
      }
      assert lines[..|lines|] == lines;
    }

    /** None when the last entry_hash found is not a string, so that nothing can be chained
        to it; the file is then left alone. The entry returned holds the payload as given,
        the file holds it as it will be read back. */
    method Append(payload: P) returns (r: Option<Line<P>>)
      modifies this
      ensures r == match scheme.LastHash(old(file).lines)
                   case Text(prev) => Some(scheme.NewEntry(prev, payload))
                   case _ => None
      ensures r.Some? ==>
                && r.value.Entry? && r.value.payload == Some(payload) && r.value.prevHash.Text?
                && scheme.IsLastHash(old(file).lines, r.value.prevHash)
                && r.value.entryHash == Text(scheme.hash(r.value.prevHash.text + scheme.canonical(payload)))
      ensures file == if r.Some? then old(file).Write(scheme.Reread(r.value)) else old(file)
      ensures r.Some? && old(file).terminated ==>
                && file.terminated
                && file.lines == old(file).lines + [r.value.(payload := Some(scheme.reload(payload)))]
      ensures scheme.Intact(old(file).lines) ==>
                && r.Some?
                && (scheme.Intact(file.lines) <==>
                    old(file).Clean() && scheme.Reproduces(r.value.prevHash.text, payload))
                && (!scheme.Intact(file.lines) ==> scheme.BreaksAt(file.lines, old(file).Next()))
                && (old(file).Clean() ==>
                    scheme.Payloads(file.lines) == scheme.Payloads(old(file).lines) + [scheme.reload(payload)])
      ensures forall i: nat :: scheme.BreaksAt(old(file).lines, i) ==>
                scheme.BreaksAt(file.lines, i) && !scheme.Intact(file.lines)
    {
      var prev := ReadLastHash();
      if scheme.Intact(file.lines) {
        scheme.AppendKeepsIntact(file, payload);
      }
      forall i: nat | scheme.BreaksAt(file.lines, i)
        ensures var after := scheme.AppendTo(file, payload).lines; scheme.BreaksAt(after, i) && !scheme.Intact(after)
      {
        scheme.AppendKeepsBreak(file, payload, i);
      }
      if !prev.Text? {
        return None;
      }
      var entry := scheme.NewEntry(prev.text, payload);
      file := file.Write(scheme.Reread(entry));
      r := Some(entry);
    }

    /** Valid exactly when the whole file chains, with the number of recorded payloads and
        their digest; otherwise the first breaking line and what verifies before it. */
    method Verify() returns (report: Report)
      ensures report.valid <==> scheme.Intact(file.lines)
      ensures report.valid <==> report.brokenAt.None?
      ensures report.valid ==> report.entries == |scheme.Payloads(file.lines)|
      ensures report.valid ==> report.head == scheme.Digest(scheme.Payloads(file.lines))
      ensures report.valid ==> scheme.LastHash(file.lines) == Text(report.head)
      ensures !report.valid ==>
                && var i, lines := report.brokenAt.value, file.lines;
                && scheme.BreaksAt(lines, i)
                && report.entries == |scheme.Payloads(lines[..i])|
                && report.head == scheme.Digest(scheme.Payloads(lines[..i]))
    {
      var lines := file.lines;
      var prev, n, broken: Option<nat> := GENESIS, 0, None;
      for i := 0 to |lines|
        invariant scheme.Chain(lines[..i]) == Some(prev) && n == scheme.NonBlank(lines[..i])
      {
        assert lines[..i + 1][..i] == lines[..i];
        var line := lines[i];
        if line.Blank? {
          continue;
        }
        if !scheme.Continues(line, prev) {
          scheme.HeadIsDigest(lines[..i]);
          scheme.StopsAt(lines, i);
          return Report(false, n, Some(i), prev);
        }
        prev, n := line.entryHash.text, n + 1;
      }
      assert lines[..|lines|] == lines;
      scheme.HeadIsDigest(lines);
      scheme.LastHashIsHead(lines);
      report := Report(true, n, None, prev);
    }
  }

  // ----- runs of appends

  /** A file only ever appended to, payload by payload. */
  ghost function AppendAll<P>(scheme: Scheme<P>, file: File<P>, ps: seq<P>): File<P> {
    if ps == [] then file else scheme.AppendTo(AppendAll(scheme, file, ps[..|ps| - 1]), ps[|ps| - 1])
  }

  /** What reading the file gives for the appended payloads. */
  ghost function Reloaded<P>(scheme: Scheme<P>, ps: seq<P>): seq<P> {
    if ps == [] then [] else Reloaded(scheme, ps[..|ps| - 1]) + [scheme.reload(ps[|ps| - 1])]
  }

  /** The head after a run of appends, as the payloads were given. */
  ghost function HeadAfter<P>(scheme: Scheme<P>, head: string, ps: seq<P>): string {
    if ps == [] then head else scheme.EntryHash(HeadAfter(scheme, head, ps[..|ps| - 1]), ps[|ps| - 1])
  }

  lemma {:induction false} HeadAfterIsDigest<P>(scheme: Scheme<P>, history: seq<P>, ps: seq<P>)
    ensures HeadAfter(scheme, scheme.Digest(history), ps) == scheme.Digest(history + ps)
    decreases |ps|
  {
    if ps == [] {
      assert history + ps == history;
    } else {
      HeadAfterIsDigest(scheme, history, ps[..|ps| - 1]);
      assert (history + ps)[..|history + ps| - 1] == history + ps[..|ps| - 1];
    }
  }

  /** Payload i of a run is hashed the same when it is read back. */
  ghost predicate ReproducesAt<P>(scheme: Scheme<P>, head: string, ps: seq<P>, i: nat)
    requires i < |ps|
  {
    scheme.Reproduces(HeadAfter(scheme, head, ps[..i]), ps[i])
  }

  ghost predicate AllReproduce<P>(scheme: Scheme<P>, head: string, ps: seq<P>) {
    forall i :: 0 <= i < |ps| ==> ReproducesAt(scheme, head, ps, i)
  }

  /** A run of appends to an intact file leaves it intact exactly when nothing is appended, or
      the file does not end within a line and every payload is hashed the same when it is read
      back. Its head then chains the appended history to the head it had. */
  lemma {:induction false} RunVerifies<P>(scheme: Scheme<P>, file: File<P>, ps: seq<P>)
    requires scheme.Intact(file.lines)
    ensures var after, head := AppendAll(scheme, file, ps), scheme.Chain(file.lines).value;
            && (scheme.Intact(after.lines) <==> ps == [] || (file.Clean() && AllReproduce(scheme, head, ps)))
            && (scheme.Intact(after.lines) ==> Records(scheme, file, ps, after))
    decreases |ps|
  {
    if ps != [] {
      var n := |ps| - 1;
      var before := AppendAll(scheme, file, ps[..n]);
      RunVerifies(scheme, file, ps[..n]);
      RunTerminates(scheme, file, ps[..n]);
      PrefixReproduces(scheme, scheme.Chain(file.lines).value, ps);
      assert AppendAll(scheme, file, ps) == scheme.AppendTo(before, ps[n]);
      if scheme.Intact(before.lines) {
        RunGoesOn(scheme, file, ps);
      } else {
        StaysBroken(scheme, before, ps[n]);
      }
    }
  }

  lemma RunGoesOn<P>(scheme: Scheme<P>, file: File<P>, ps: seq<P>)
    requires scheme.Intact(file.lines) && ps != []
    requires var before := AppendAll(scheme, file, ps[..|ps| - 1]);
             scheme.Intact(before.lines) && Records(scheme, file, ps[..|ps| - 1], before)
    ensures var after, n := AppendAll(scheme, file, ps), |ps| - 1;
            && (scheme.Intact(after.lines) <==>
                AppendAll(scheme, file, ps[..n]).Clean() && ReproducesAt(scheme, scheme.Chain(file.lines).value, ps, n))
            && (scheme.Intact(after.lines) ==> Records(scheme, file, ps, after))
  {
    OneMore(scheme, AppendAll(scheme, file, ps[..|ps| - 1]), ps[|ps| - 1]);
  }

  /** The file records the reloaded payloads behind those it held, and its head chains the
      payloads as they were given to the head it had. */
  ghost predicate Records<P>(scheme: Scheme<P>, file: File<P>, ps: seq<P>, after: File<P>)
    requires scheme.Intact(file.lines)
  {
    && scheme.Payloads(after.lines) == scheme.Payloads(file.lines) + Reloaded(scheme, ps)
    && scheme.Chain(after.lines) == Some(HeadAfter(scheme, scheme.Chain(file.lines).value, ps))
  }

  lemma OneMore<P>(scheme: Scheme<P>, before: File<P>, payload: P)
    requires scheme.Intact(before.lines)
    ensures var after, head := scheme.AppendTo(before, payload), scheme.Chain(before.lines).value;
            && after.terminated
            && (scheme.Intact(after.lines) <==> before.Clean() && scheme.Reproduces(head, payload))
            && (scheme.Intact(after.lines) ==>
                && scheme.Payloads(after.lines) == scheme.Payloads(before.lines) + [scheme.reload(payload)]
                && scheme.Chain(after.lines) == Some(scheme.EntryHash(head, payload)))
  {
    scheme.LastHashIsHead(before.lines);
    scheme.AppendKeepsIntact(before, payload);
  }

  lemma StaysBroken<P>(scheme: Scheme<P>, before: File<P>, payload: P)
    requires !scheme.Intact(before.lines)
    ensures !scheme.Intact(scheme.AppendTo(before, payload).lines)
    ensures scheme.LastHash(before.lines).Text? ==> scheme.AppendTo(before, payload).terminated
  {
    var i := scheme.BrokenSomewhere(before.lines);
    scheme.AppendKeepsBreak(before, payload, i);
  }

  /** Every append finds a text to chain to, and ends with a newline. */
  lemma {:induction false} RunTerminates<P>(scheme: Scheme<P>, file: File<P>, ps: seq<P>)
    requires scheme.Intact(file.lines)
    ensures scheme.LastHash(AppendAll(scheme, file, ps).lines).Text?
    ensures ps != [] ==> AppendAll(scheme, file, ps).terminated
    decreases |ps|
  {
    scheme.LastHashIsHead(file.lines);
    if ps != [] {
      var before := AppendAll(scheme, file, ps[..|ps| - 1]);
      RunTerminates(scheme, file, ps[..|ps| - 1]);
      WrittenHasText(scheme, before, ps[|ps| - 1]);
    }
  }

  lemma WrittenHasText<P>(scheme: Scheme<P>, file: File<P>, payload: P)
    requires scheme.LastHash(file.lines).Text? && (file.Clean() || scheme.Intact(file.lines))
    ensures scheme.LastHash(scheme.AppendTo(file, payload).lines).Text?
  {
    var after := scheme.AppendTo(file, payload).lines;
    assert after[..|after| - 1] == file.lines[..file.Next()];
    if !file.Clean() {
      scheme.IntactPrefix(file.lines, file.Next());
      scheme.LastHashIsHead(file.lines[..file.Next()]);
    }
  }

  lemma PrefixReproduces<P>(scheme: Scheme<P>, head: string, ps: seq<P>)
    requires ps != []
    ensures AllReproduce(scheme, head, ps) <==>
            AllReproduce(scheme, head, ps[..|ps| - 1]) && ReproducesAt(scheme, head, ps, |ps| - 1)
  {
    var n := |ps| - 1;
    forall i | 0 <= i < n ensures ReproducesAt(scheme, head, ps[..n], i) == ReproducesAt(scheme, head, ps, i) {
      assert ps[..n][..i] == ps[..i];
    }
  }

  /** A run to a clean file is otherwise reported broken at the line of its first payload that
      is not hashed the same, ... */
  lemma RunBreaksAt<P>(scheme: Scheme<P>, file: File<P>, ps: seq<P>, i: nat)
    requires scheme.Intact(file.lines) && file.Clean()
    requires FirstLost(scheme, scheme.Chain(file.lines).value, ps, i)
    ensures scheme.BreaksAt(AppendAll(scheme, file, ps).lines, file.Next() + i)
  {
    FirstLostPrefix(scheme, scheme.Chain(file.lines).value, ps, i);
    LastBreaks(scheme, file, ps[..i + 1]);
    BreakPersists(scheme, file, ps, i + 1, file.Next() + i);
  }

  /** Payload i is the first of a run that is not hashed the same when it is read back. */
  ghost predicate FirstLost<P>(scheme: Scheme<P>, head: string, ps: seq<P>, i: nat) {
    i < |ps| && !ReproducesAt(scheme, head, ps, i) && AllReproduce(scheme, head, ps[..i])
  }

  lemma FirstLostPrefix<P>(scheme: Scheme<P>, head: string, ps: seq<P>, i: nat)
    requires FirstLost(scheme, head, ps, i)
    ensures |ps[..i + 1]| == i + 1 && FirstLost(scheme, head, ps[..i + 1], i)
  {
    assert ps[..i + 1][..i] == ps[..i];
  }

  lemma {:induction false} BreakPersists<P>(scheme: Scheme<P>, file: File<P>, ps: seq<P>, m: nat, i: nat)
    requires m <= |ps| && scheme.BreaksAt(AppendAll(scheme, file, ps[..m]).lines, i)
    ensures scheme.BreaksAt(AppendAll(scheme, file, ps).lines, i)
    decreases |ps|
  {
    if m < |ps| {
      var n := |ps| - 1;
      assert ps[..n][..m] == ps[..m];
      BreakPersists(scheme, file, ps[..n], m, i);
      scheme.AppendKeepsBreak(AppendAll(scheme, file, ps[..n]), ps[n], i);
    } else {
      assert ps[..m] == ps;
    }
  }

  lemma LastBreaks<P>(scheme: Scheme<P>, file: File<P>, ps: seq<P>)
    requires scheme.Intact(file.lines) && file.Clean() && ps != []
    requires FirstLost(scheme, scheme.Chain(file.lines).value, ps, |ps| - 1)
    ensures scheme.BreaksAt(AppendAll(scheme, file, ps).lines, file.Next() + |ps| - 1)
  {
    var n := |ps| - 1;
    var before := AppendAll(scheme, file, ps[..n]);
    assert AppendAll(scheme, file, ps) == scheme.AppendTo(before, ps[n]);
    StillIntact(scheme, file, ps[..n]);
    LostBreaks(scheme, before, ps[n]);
  }

  lemma StillIntact<P>(scheme: Scheme<P>, file: File<P>, ps: seq<P>)
    requires scheme.Intact(file.lines) && file.Clean() && AllReproduce(scheme, scheme.Chain(file.lines).value, ps)
    ensures var after := AppendAll(scheme, file, ps);
            && after.Next() == file.Next() + |ps| && scheme.Intact(after.lines)
            && scheme.Chain(after.lines).value == HeadAfter(scheme, scheme.Chain(file.lines).value, ps)
  {
    RunVerifies(scheme, file, ps);
    RunLength(scheme, file, ps);
  }

  lemma LostBreaks<P>(scheme: Scheme<P>, before: File<P>, payload: P)
    requires scheme.Intact(before.lines) && !scheme.Reproduces(scheme.Chain(before.lines).value, payload)
    ensures scheme.BreaksAt(scheme.AppendTo(before, payload).lines, before.Next())
  {
    scheme.LastHashIsHead(before.lines);
    scheme.AppendKeepsIntact(before, payload);
  }

  /** ... and one to a file that ends within a line at that line. */
  lemma TornRunBreaks<P>(scheme: Scheme<P>, file: File<P>, ps: seq<P>)
    requires scheme.Intact(file.lines) && !file.Clean() && ps != []
    ensures scheme.BreaksAt(AppendAll(scheme, file, ps).lines, file.Next())
  {
    assert ps[..1] == [ps[0]] && [ps[0]][..0] == [];
    scheme.AppendKeepsIntact(file, ps[0]);
    BreakPersists(scheme, file, ps, 1, file.Next());
  }

  lemma {:induction false} RunLength<P>(scheme: Scheme<P>, file: File<P>, ps: seq<P>)
    requires scheme.Intact(file.lines) && file.Clean()
    ensures var after := AppendAll(scheme, file, ps); after.Clean() && after.Next() == file.Next() + |ps|
    decreases |ps|
  {
    if ps != [] {
      RunLength(scheme, file, ps[..|ps| - 1]);
      RunTerminates(scheme, file, ps[..|ps| - 1]);
    }
  }

  /** Appending to an intact file whose newline is missing: whatever the payload, the entry
      before and the new one are lost in one broken line. */
  lemma TornAppendBreaks<P>(scheme: Scheme<P>, first: P, second: P)
    requires scheme.SurvivesReload(first)
    ensures var whole := scheme.AppendTo(File([], true), first);
            var torn := File(whole.lines, false);
            && scheme.Intact(torn.lines) && scheme.BreaksAt(scheme.AppendTo(torn, second).lines, 0)
  {
    scheme.AppendKeepsIntact(File([], true), first);
    var torn := File(scheme.AppendTo(File([], true), first).lines, false);
    scheme.AppendKeepsIntact(torn, second);
  }

  // ----- a payload that does not survive

  /** A flat dictionary of strings, keyed by integers or by strings, in insertion order. */
  datatype Dict = IntKeys(ints: seq<(nat, string)>) | TextKeys(texts: seq<(string, string)>)

  function Decimal(n: nat): string {
    (if n < 10 then "" else Decimal(n / 10)) + ["0123456789"[n % 10]]
  }

  function WithTextKeys(items: seq<(nat, string)>): seq<(string, string)> {
    if items == [] then [] else [(Decimal(items[0].0), items[0].1)] + WithTextKeys(items[1..])
  }

  /** JSON objects have string keys only. */
  function ReloadDict(d: Dict): Dict {
    if d.IntKeys? then TextKeys(WithTextKeys(d.ints)) else d
  }

  function TextBefore(a: string, b: string): bool {
    b != "" && (a == "" || a[0] < b[0] || (a[0] == b[0] && TextBefore(a[1..], b[1..])))
  }

  function InsertInt(x: (nat, string), items: seq<(nat, string)>): seq<(nat, string)> {
    if items == [] || x.0 < items[0].0 then [x] + items else [items[0]] + InsertInt(x, items[1..])
  }

  function SortInts(items: seq<(nat, string)>): seq<(nat, string)> {
    if items == [] then [] else InsertInt(items[0], SortInts(items[1..]))
  }

  function InsertText(x: (string, string), items: seq<(string, string)>): seq<(string, string)> {
    if items == [] || TextBefore(x.0, items[0].0) then [x] + items else [items[0]] + InsertText(x, items[1..])
  }

  function SortTexts(items: seq<(string, string)>): seq<(string, string)> {
    if items == [] then [] else InsertText(items[0], SortTexts(items[1..]))
  }

  /** The members of an object, each string written as its JSON literal. */
  function Members(items: seq<(string, string)>, quote: string -> string): string {
    if items == [] then "" else
      quote(items[0].0) + ":" + quote(items[0].1) + if |items| == 1 then "" else "," + Members(items[1..], quote)
  }

  /** json.dumps with sorted keys and tight separators: keys are sorted before they become text. */
  function CanonicalDict(d: Dict, quote: string -> string): string {
    "{" + Members(if d.IntKeys? then WithTextKeys(SortInts(d.ints)) else SortTexts(d.texts), quote) + "}"
  }

  lemma TwoAndTen()
    ensures Decimal(2) == "2" && Decimal(10) == "10"
    ensures TextBefore("10", "2") && !TextBefore("2", "10")
  {
    assert Decimal(1) == "1";
  }

  /** Keys 2 and 10 are in integer order before they are written and in text order afterwards. */
  lemma IntKeysReordered(a: string, b: string, quote: string -> string)
    requires quote("2") == "\"2\"" && quote("10") == "\"10\""
    ensures var d := IntKeys([(2, a), (10, b)]);
            && CanonicalDict(d, quote) == "{" + Members([("2", a), ("10", b)], quote) + "}"
            && CanonicalDict(ReloadDict(d), quote) == "{" + Members([("10", b), ("2", a)], quote) + "}"
            && CanonicalDict(d, quote) != CanonicalDict(ReloadDict(d), quote)
  {
    TwoAndTen();
    var items, texts := [(2, a), (10, b)], [("2", a), ("10", b)];
    assert items[1..] == [(10, b)] && texts[1..] == [("10", b)];
    assert SortInts([(10, b)]) == [(10, b)] && SortInts(items) == items;
    assert WithTextKeys([(10, b)]) == [("10", b)] && WithTextKeys(items) == texts;
    assert SortTexts([("10", b)]) == [("10", b)];
    assert [("10", b)][1..] == [];
    assert SortTexts(texts) == InsertText(("2", a), [("10", b)]) == [("10", b), ("2", a)];
    assert ReloadDict(IntKeys(items)) == TextKeys(texts);
    assert CanonicalDict(IntKeys(items), quote)[2] == '2';
    assert CanonicalDict(ReloadDict(IntKeys(items)), quote)[2] == '1';
  }

  /** The single append of {2: a, 10: b} to an empty ledger is reported broken at line 0 under
      every hash that tells the two orders of its keys apart. */
  lemma IntKeysBreak(hash: string -> string, a: string, b: string, quote: string -> string)
    requires quote("2") == "\"2\"" && quote("10") == "\"10\""
    ensures var d := IntKeys([(2, a), (10, b)]);
            var scheme := Scheme(hash, (p: Dict) => CanonicalDict(p, quote), ReloadDict);
            var x, y := GENESIS + CanonicalDict(d, quote), GENESIS + CanonicalDict(ReloadDict(d), quote);
            hash(x) != hash(y) ==> scheme.BreaksAt(scheme.AppendTo(File([], true), d).lines, 0)
  {
    var d := IntKeys([(2, a), (10, b)]);
    var scheme := Scheme(hash, (p: Dict) => CanonicalDict(p, quote), ReloadDict);
    IntKeysReordered(a, b, quote);
    scheme.AppendKeepsIntact(File([], true), d);
  }
}
