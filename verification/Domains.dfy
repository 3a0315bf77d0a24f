/** Monitoring domains, and the mask a comma-separated domain list stands for. */
module Domains {
  import opened Text
  import opened Bits

  const END_DOMAINS := 19

  type Domain = d: nat | d < END_DOMAINS

  const SYNCS: Domain := 5
  const FILE_SPACE: Domain := 8
  const FILE_METADATA: Domain := 10
  const FILE_WRITE: Domain := 11
  const FILE_READ: Domain := 12
  const FILE_OPEN_CLOSE: Domain := 13
  const START_STOP: Domain := 16

  const NAMES: seq<string> :=
    ["LINKS", "XATTRS", "DIRS", "FILE_SYSTEMS", "FILE_DESCRIPTORS", "SYNCS", "SOCKETS", "SEEKS",
     "FILE_SPACE", "PROCESSES", "FILE_METADATA", "FILE_WRITE", "FILE_READ", "FILE_OPEN_CLOSE",
     "MISC", "DIR_METADATA", "START_STOP", "HTTP", "THREADS"]

  const EVERYTHING := "ALL"
  const COMMA := ","

  lemma NamesDistinct(i: nat, j: nat)
    requires i < END_DOMAINS && j < END_DOMAINS && NAMES[i] == NAMES[j]
    ensures i == j
  {
    var s, t := NAMES[i], NAMES[j];
    assert |s| == |t| && s[1] == t[1] && s[|s| - 2] == t[|t| - 2];
  }

  lemma NamesClean()
    ensures |NAMES| == END_DOMAINS && Clean(NAMES, COMMA) && EVERYTHING !in NAMES
  {
    forall i | 0 <= i < END_DOMAINS
      ensures NAMES[i] != EVERYTHING
    {
      assert |NAMES[i]| > 3;
    }
  }

  /** The index of a known name, END_DOMAINS for any other text. */
  function IndexOf(name: string): (i: nat)
    ensures i <= END_DOMAINS && (i < END_DOMAINS ==> NAMES[i] == name)
    ensures name in NAMES ==> i < END_DOMAINS
  {
    if name in NAMES then (var i :| 0 <= i < |NAMES| && NAMES[i] == name; i) else END_DOMAINS
  }

  function MaskOfToken(token: string): bv32 {
    (if token in NAMES then Bit(IndexOf(token)) else 0) | (if token == EVERYTHING then ALL_BITS else 0)
  }

  function MaskOfTokens(ts: seq<string>): bv32 {
    if ts == [] then 0 else MaskOfToken(ts[0]) | MaskOfTokens(ts[1..])
  }

  function MaskOf(list: string): bv32 {
    MaskOfTokens(Tokens(list, COMMA))
  }

  /** Bit i is wanted: the list names domain i, or asks for everything. */
  predicate Wanted(ts: seq<string>, i: nat) {
    EVERYTHING in ts || (i < END_DOMAINS && NAMES[i] in ts)
  }

  lemma WantedNothing(i: nat)
    ensures !Wanted([], i)
  {
  }

  lemma WantedBoth(ts: seq<string>, us: seq<string>, i: nat)
    ensures Wanted(ts + us, i) <==> Wanted(ts, i) || Wanted(us, i)
  {
  }

  lemma IndexIs(token: string, i: nat)
    ensures token in NAMES ==> IndexOf(token) < END_DOMAINS
    ensures token in NAMES ==> (i == IndexOf(token) <==> i < END_DOMAINS && NAMES[i] == token)
    ensures token !in NAMES && i < END_DOMAINS ==> NAMES[i] != token
  {
    if token in NAMES && i < END_DOMAINS && NAMES[i] == token {
      NamesDistinct(i, IndexOf(token));
    }
  }

  lemma TokenBits(token: string, i: nat)
    requires i < 32
    ensures Has(MaskOfToken(token), i) <==> Wanted([token], i)
  {
    hide Bit, Has, IndexOf;
    IndexIs(token, i);
    var known := if token in NAMES then Bit(IndexOf(token)) else 0;
    var all: bv32 := if token == EVERYTHING then ALL_BITS else 0;
    HasOr(known, all, i);
    HasConstant(i);
    if token in NAMES {
      HasBit(IndexOf(token), i);
    }
  }

  /** A mask bit is set exactly when its domain is named or ALL is; unknown names set nothing. */
  lemma {:induction false} MaskBits(ts: seq<string>, i: nat)
    requires i < 32
    ensures Has(MaskOfTokens(ts), i) <==> Wanted(ts, i)
  {
    hide Bit, Has, Wanted, MaskOfToken;
    if ts == [] {
      HasConstant(i);
      WantedNothing(i);
    } else {
      assert [ts[0]] + ts[1..] == ts;
      WantedBoth([ts[0]], ts[1..], i);
      TokenBits(ts[0], i);
      MaskBits(ts[1..], i);
      HasUnion(MaskOfTokens(ts), MaskOfToken(ts[0]), MaskOfTokens(ts[1..]), i);
    }
  }

  /** Order, repetitions and unknown names never matter: only which known names occur does, and ALL. */
  lemma SameTokensSameMask(ts: seq<string>, us: seq<string>)
    requires EVERYTHING in ts <==> EVERYTHING in us
    requires forall i | 0 <= i < END_DOMAINS :: NAMES[i] in ts <==> NAMES[i] in us
    ensures MaskOfTokens(ts) == MaskOfTokens(us)
  {
    hide Bit, Has, MaskOfTokens;
    forall i | 0 <= i < 32
      ensures Has(MaskOfTokens(ts), i) <==> Has(MaskOfTokens(us), i)
    {
      MaskBits(ts, i);
      MaskBits(us, i);
    }
    SameBits(MaskOfTokens(ts), MaskOfTokens(us));
  }

  /** Two lists joined by a comma stand for the union of what each stands for. */
  lemma MaskOfJoinedLists(a: string, b: string)
    ensures MaskOf(a + COMMA + b) == MaskOf(a) | MaskOf(b)
  {
    hide Bit, Has, Wanted, MaskOfTokens;
    var ts, us := Tokens(a, COMMA), Tokens(b, COMMA);
    TokensAppend(a, ',', b, COMMA);
    forall i | 0 <= i < 32
      ensures Has(MaskOf(a + COMMA + b), i) <==> Has(MaskOf(a) | MaskOf(b), i)
    {
      MaskBits(ts + us, i);
      MaskBits(ts, i);
      MaskBits(us, i);
      WantedBoth(ts, us, i);
      HasOr(MaskOf(a), MaskOf(b), i);
    }
    SameBits(MaskOf(a + COMMA + b), MaskOf(a) | MaskOf(b));
  }

  /** ALL anywhere in the list absorbs everything else. */
  lemma AllAbsorbs(list: string)
    requires EVERYTHING in Tokens(list, COMMA)
    ensures MaskOf(list) == ALL_BITS
  {
    hide Bit, Has, MaskOfTokens;
    forall i | 0 <= i < 32
      ensures Has(MaskOf(list), i) <==> Has(ALL_BITS, i)
    {
      MaskBits(Tokens(list, COMMA), i);
      HasConstant(i);
    }
    SameBits(MaskOf(list), ALL_BITS);
  }

  lemma AllAlone()
    ensures MaskOf(EVERYTHING) == ALL_BITS
  {
    TokensOfOne(EVERYTHING, COMMA);
    AllAbsorbs(EVERYTHING);
  }

  lemma {:induction false} MaskOfOneMore(ts: seq<string>, token: string)
    ensures MaskOfTokens(ts + [token]) == MaskOfTokens(ts) | MaskOfToken(token)
  {
    hide MaskOfToken;
    if ts == [] {
      OrLaws(MaskOfToken(token), 0, 0);
    } else {
      MaskOfOneMore(ts[1..], token);
      assert (ts + [token])[1..] == ts[1..] + [token];
      OrLaws(MaskOfToken(ts[0]), MaskOfTokens(ts[1..]), MaskOfToken(token));
    }
  }

  /** The nested loops over strtok_r tokens and the name table. */
  method DomainListToBitMask(list: string) returns (mask: bv32)
    ensures mask == MaskOf(list)
  {
    hide Bit, Has, MaskOfToken, Tokens;
    mask := 0;
    var rest := list;
    ghost var done: seq<string> := [];
    while true
      invariant Tokens(list, COMMA) == done + Tokens(rest, COMMA)
      invariant mask == MaskOfTokens(done)
      decreases |rest|
    {
      var cut := NextToken(rest, COMMA);
      if cut.NoToken? {
        break;
      }
      mask := AddToken(mask, cut.token);
      MaskOfOneMore(done, cut.token);
      done := done + [cut.token];
      rest := cut.rest;
    }
    assert done == Tokens(list, COMMA);
  }

  /** The inner loop: the table entry that strcmp finds, END_DOMAINS when it runs off the end. */
  method FindName(token: string) returns (i: nat)
    ensures i == IndexOf(token)
  {
    i := 0;
    while i != END_DOMAINS
      invariant 0 <= i <= END_DOMAINS && token !in NAMES[..i]
      decreases END_DOMAINS - i
    {
      if token == NAMES[i] {
        NamesDistinct(i, IndexOf(token));
        break;
      }
      i := i + 1;
    }
  }

  /** One round of the outer loop: the bit of a known name, and every bit for ALL. */
  method AddToken(mask: bv32, token: string) returns (r: bv32)
    ensures r == mask | MaskOfToken(token)
  {
    hide Bit;
    r := mask;
    var i := FindName(token);
    ghost var known: bv32 := if i != END_DOMAINS then Bit(i) else 0;
    OrLaws(mask, known, if token == EVERYTHING then ALL_BITS else 0);
    OrLaws(mask | known, 0, 0);
    if i != END_DOMAINS {
      r := r | Bit(i);
    }
    if token == EVERYTHING {
      r := r | ALL_BITS;
    }
  }

  /** No bit outside the name table: what print-mask needs of its mask. */
  predicate Printable(m: bv32) {
    forall i | END_DOMAINS <= i < 32 :: !Has(m, i)
  }

  /** The names of the set bits from bit j up, ascending. */
  function NamesFrom(m: bv32, j: nat): seq<string>
    requires j <= END_DOMAINS
    decreases END_DOMAINS - j
  {
    if j == END_DOMAINS then []
    else (if Has(m, j) then [NAMES[j]] else []) + NamesFrom(m, j + 1)
  }

  lemma OneName(m: bv32, j: nat, i: nat)
    requires j < END_DOMAINS && i < END_DOMAINS
    ensures NAMES[i] in (if Has(m, j) then [NAMES[j]] else []) <==> Has(m, j) && i == j
    ensures Clean(if Has(m, j) then [NAMES[j]] else [], COMMA)
    ensures EVERYTHING !in (if Has(m, j) then [NAMES[j]] else [])
  {
    hide Has;
    NamesClean();
    if NAMES[i] == NAMES[j] {
      NamesDistinct(i, j);
    }
  }

  lemma CleanBoth(a: seq<string>, b: seq<string>)
    requires Clean(a, COMMA) && Clean(b, COMMA)
    ensures Clean(a + b, COMMA)
  {
  }

  lemma InBoth(name: string, a: seq<string>, b: seq<string>)
    ensures name in a + b <==> name in a || name in b
  {
  }

  lemma NamesFromHead(m: bv32, j: nat)
    requires j <= END_DOMAINS
    ensures NamesFrom(m, j)
         == if j == END_DOMAINS then [] else (if Has(m, j) then [NAMES[j]] else []) + NamesFrom(m, j + 1)
  {
    hide Has;
  }

  lemma {:induction false} NamesFromMembers(m: bv32, j: nat, i: nat)
    requires j <= END_DOMAINS && i < END_DOMAINS
    ensures NAMES[i] in NamesFrom(m, j) <==> j <= i && Has(m, i)
    ensures Clean(NamesFrom(m, j), COMMA) && EVERYTHING !in NamesFrom(m, j)
    decreases END_DOMAINS - j
  {
    hide Has, NamesFrom, Clean;
    NamesFromHead(m, j);
    if j < END_DOMAINS {
      var head, tail := if Has(m, j) then [NAMES[j]] else [], NamesFrom(m, j + 1);
      NamesFromMembers(m, j + 1, i);
      OneName(m, j, i);
      CleanBoth(head, tail);
      InBoth(NAMES[i], head, tail);
      InBoth(EVERYTHING, head, tail);
    } else {
      NothingClean();
    }
  }

  lemma NothingClean()
    ensures Clean([], COMMA)
  {
  }

  /** The mask is printable exactly when the list did not say ALL. */
  lemma PrintableLists(list: string)
    ensures Printable(MaskOf(list)) <==> EVERYTHING !in Tokens(list, COMMA)
  {
    hide Bit, Has, MaskOfTokens;
    forall i | END_DOMAINS <= i < 32
      ensures Has(MaskOf(list), i) <==> EVERYTHING in Tokens(list, COMMA)
    {
      MaskBits(Tokens(list, COMMA), i);
    }
    assert Printable(MaskOf(list)) ==> !Has(MaskOf(list), 31);
  }

  /** Parsing the printed names of a printable mask gives the mask back. */
  lemma ParseOfPrinted(m: bv32)
    requires Printable(m)
    ensures MaskOf(Join(NamesFrom(m, 0), ',')) == m
  {
    hide Bit, Has, MaskOfTokens;
    var ts := NamesFrom(m, 0);
    NamesFromMembers(m, 0, 0);
    TokensOfJoin(ts, ',', COMMA);
    forall i | 0 <= i < 32
      ensures Has(MaskOfTokens(ts), i) <==> Has(m, i)
    {
      MaskBits(ts, i);
      if i < END_DOMAINS {
        NamesFromMembers(m, 0, i);
      }
    }
    SameBits(MaskOfTokens(ts), m);
  }

  /** The known names among the tokens, in table order and each once. */
  function KnownFrom(ts: seq<string>, j: nat): seq<string>
    requires j <= END_DOMAINS
    decreases END_DOMAINS - j
  {
    if j == END_DOMAINS then []
    else (if NAMES[j] in ts then [NAMES[j]] else []) + KnownFrom(ts, j + 1)
  }

  /** Printing the mask of any list without ALL sorts the known names and drops repeats. */
  lemma {:induction false} PrintOfParsed(ts: seq<string>, j: nat)
    requires j <= END_DOMAINS && EVERYTHING !in ts
    ensures NamesFrom(MaskOfTokens(ts), j) == KnownFrom(ts, j)
    decreases END_DOMAINS - j
  {
    hide Bit, Has, MaskOfTokens;
    if j < END_DOMAINS {
      MaskBits(ts, j);
      PrintOfParsed(ts, j + 1);
    }
  }

  lemma Named(d: Domain, name: string, bit: bv32)
    requires NAMES[d] == name && Bit(d) == bit
    ensures MaskOf(name) == bit
  {
    hide Bit, Tokens;
    NamesClean();
    assert name != "" && NoneOf(name, COMMA);
    TokensOfOne(name, COMMA);
    IndexIs(name, d);
    OrLaws(bit, 0, 0);
    assert MaskOfTokens([name]) == MaskOfToken(name) | MaskOfTokens([]);
  }

  lemma FirstNames()
    ensures MaskOf("LINKS") == 0x1 && MaskOf("XATTRS") == 0x2
    ensures MaskOf("DIRS") == 0x4 && MaskOf("FILE_SYSTEMS") == 0x8
    ensures MaskOf("FILE_DESCRIPTORS") == 0x10
  {
    hide MaskOf;
    Named(0, "LINKS", 0x1);
    Named(1, "XATTRS", 0x2);
    Named(2, "DIRS", 0x4);
    Named(3, "FILE_SYSTEMS", 0x8);
    Named(4, "FILE_DESCRIPTORS", 0x10);
  }

  lemma SecondNames()
    ensures MaskOf("SYNCS") == 0x20 && MaskOf("SOCKETS") == 0x40
    ensures MaskOf("SEEKS") == 0x80 && MaskOf("FILE_SPACE") == 0x100
    ensures MaskOf("PROCESSES") == 0x200
  {
    hide MaskOf;
    Named(5, "SYNCS", 0x20);
    Named(6, "SOCKETS", 0x40);
    Named(7, "SEEKS", 0x80);
    Named(8, "FILE_SPACE", 0x100);
    Named(9, "PROCESSES", 0x200);
  }

  lemma ThirdNames()
    ensures MaskOf("FILE_METADATA") == 0x400 && MaskOf("FILE_WRITE") == 0x800
    ensures MaskOf("FILE_READ") == 0x1000 && MaskOf("FILE_OPEN_CLOSE") == 0x2000
    ensures MaskOf("MISC") == 0x4000
  {
    hide MaskOf;
    Named(10, "FILE_METADATA", 0x400);
    Named(11, "FILE_WRITE", 0x800);
    Named(12, "FILE_READ", 0x1000);
    Named(13, "FILE_OPEN_CLOSE", 0x2000);
    Named(14, "MISC", 0x4000);
  }

  lemma LastNames()
    ensures MaskOf("DIR_METADATA") == 0x8000 && MaskOf("START_STOP") == 0x1_0000
    ensures MaskOf("HTTP") == 0x2_0000 && MaskOf("THREADS") == 0x4_0000
  {
    hide MaskOf;
    Named(15, "DIR_METADATA", 0x8000);
    Named(16, "START_STOP", 0x1_0000);
    Named(17, "HTTP", 0x2_0000);
    Named(18, "THREADS", 0x4_0000);
  }

  /** What each name stands for, and ALL. */
  lemma BitsByName()
    ensures MaskOf("LINKS") == 0x1 && MaskOf("XATTRS") == 0x2
    ensures MaskOf("DIRS") == 0x4 && MaskOf("FILE_SYSTEMS") == 0x8
    ensures MaskOf("FILE_DESCRIPTORS") == 0x10 && MaskOf("SYNCS") == 0x20
    ensures MaskOf("SOCKETS") == 0x40 && MaskOf("SEEKS") == 0x80
    ensures MaskOf("FILE_SPACE") == 0x100 && MaskOf("PROCESSES") == 0x200
    ensures MaskOf("FILE_METADATA") == 0x400 && MaskOf("FILE_WRITE") == 0x800
    ensures MaskOf("FILE_READ") == 0x1000 && MaskOf("FILE_OPEN_CLOSE") == 0x2000
    ensures MaskOf("MISC") == 0x4000 && MaskOf("DIR_METADATA") == 0x8000
    ensures MaskOf("START_STOP") == 0x1_0000 && MaskOf("HTTP") == 0x2_0000
    ensures MaskOf("THREADS") == 0x4_0000
    ensures MaskOf("ALL") == 0xFFFF_FFFF
  {
    hide MaskOf;
    FirstNames();
    SecondNames();
    ThirdNames();
    LastNames();
    AllAlone();
  }

  /** The domains that the listener or the capture library treats in a way of its own are those of these names. */
  lemma DomainsByName()
    ensures MaskOf("SYNCS") == Bit(SYNCS) && MaskOf("FILE_SPACE") == Bit(FILE_SPACE)
    ensures MaskOf("FILE_METADATA") == Bit(FILE_METADATA) && MaskOf("FILE_WRITE") == Bit(FILE_WRITE)
    ensures MaskOf("FILE_READ") == Bit(FILE_READ) && MaskOf("FILE_OPEN_CLOSE") == Bit(FILE_OPEN_CLOSE)
    ensures MaskOf("START_STOP") == Bit(START_STOP)
  {
    hide MaskOf;
    BitsByName();
  }
}
