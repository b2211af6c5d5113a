/** Uncles: the checks of ethereum/pow/consensus.py and what they guarantee along a chain. */
module Uncles {
  import opened ByteStrings
  import opened IntMath
  import opened Words
  import opened Headers

  datatype Block = Block(header: Header, uncles: seq<Header>)

  /** Hash functions, difficulty rule and proof-of-work check, and the limits. */
  datatype Rules = Rules(
    hash: Header -> Hash, hashUncles: seq<Header> -> Hash,
    calcDifficulty: (Header, int) -> int, checkPow: Header -> bool)

  const MAX_UNCLE_DEPTH := 6
  const MAX_UNCLES := 2
  const UNCLE_DEPTH_PENALTY_FACTOR := 8

  datatype Error =
    | HashMismatch | TooManyUncles | NumberTooHigh | NoValidAncestor | DifficultyMismatch | NumberMismatch
    | TimestampMismatch | DuplicateUncle | TooMuchGas | PowAssertion

  function Hashes(r: Rules, hs: seq<Header>): (o: seq<Hash>)
    ensures |o| == |hs| && forall i :: 0 <= i < |hs| ==> o[i] == r.hash(hs[i])
  {
    seq(|hs|, i requires 0 <= i < |hs| => r.hash(hs[i]))
  }

  /** The first header with the given hash. */
  function Find(r: Rules, hs: seq<Header>, h: Hash): (o: Option<Header>)
    ensures o.Some? <==> h in Hashes(r, hs)
    ensures o.Some? ==> o.value in hs && r.hash(o.value) == h
  {
    if hs == [] then None
    else if r.hash(hs[0]) == h then assert Hashes(r, hs)[0] == h; Some(hs[0])
    else
      assert Hashes(r, hs) == [r.hash(hs[0])] + Hashes(r, hs[1..]);
      Find(r, hs[1..], h)
  }

  /** The checks of one uncle, in their order. */
  function CheckUncle(r: Rules, u: Header, ancestors: seq<Header>, ineligible: set<Hash>): Option<Error>
    requires ancestors != []
  {
    if |ancestors| < 2 || u.prevhash !in Hashes(r, ancestors[2..]) then Some(NoValidAncestor)
    else
      var parent := Find(r, ancestors, u.prevhash);
      if parent.None? then Some(NoValidAncestor)
      else if u.difficulty != r.calcDifficulty(parent.value, u.timestamp) then Some(DifficultyMismatch)
      else if u.number != parent.value.number + 1 then Some(NumberMismatch)
      else if u.timestamp < parent.value.timestamp then Some(TimestampMismatch)
      else if r.hash(u) in ineligible then Some(DuplicateUncle)
      else if u.gasUsed > u.gasLimit then Some(TooMuchGas)
      else if !r.checkPow(u) then Some(PowAssertion)
      else None
  }

  /** Each accepted uncle becomes ineligible for the next. */
  function CheckUncles(r: Rules, uncles: seq<Header>, ancestors: seq<Header>, ineligible: set<Hash>): Option<Error>
    requires ancestors != []
  {
    if uncles == [] then None
    else
      var e := CheckUncle(r, uncles[0], ancestors, ineligible);
      if e.Some? then e else CheckUncles(r, uncles[1..], ancestors, ineligible + {r.hash(uncles[0])})
  }

  function AncestorChain(block: Block, prevHeaders: seq<Header>): (o: seq<Header>)
    ensures o != []
  {
    [block.header] + prevHeaders[..if |prevHeaders| <= MAX_UNCLE_DEPTH + 1 then |prevHeaders| else MAX_UNCLE_DEPTH + 1]
  }

  /** The uncles remembered from the six numbers below. */
  function RecentFrom(recent: map<int, seq<Hash>>, number: int): set<Hash> {
    set m, h | m in recent.Keys && number - MAX_UNCLE_DEPTH <= m < number && h in recent[m] :: h
  }

  function Barred(r: Rules, block: Block, prevHeaders: seq<Header>, recent: map<int, seq<Hash>>): set<Hash> {
    (set h | h in Hashes(r, AncestorChain(block, prevHeaders))) + RecentFrom(recent, block.header.number)
  }

  predicate NumbersBelow(uncles: seq<Header>, number: int) {
    forall i :: 0 <= i < |uncles| ==> uncles[i].number < number
  }

  function UnclesError(r: Rules, block: Block, prevHeaders: seq<Header>, recent: map<int, seq<Hash>>): Option<Error> {
    if r.hashUncles(block.uncles) != block.header.unclesHash then Some(HashMismatch)
    else if |block.uncles| > MAX_UNCLES then Some(TooManyUncles)
    else if !NumbersBelow(block.uncles, block.header.number) then Some(NumberTooHigh)
    else CheckUncles(r, block.uncles, AncestorChain(block, prevHeaders), Barred(r, block, prevHeaders, recent))
  }

  /** Where the other checks pass, the proof of work decides. */
  lemma OnlyPow(r: Rules, all: Rules, block: Block, prevHeaders: seq<Header>, recent: map<int, seq<Hash>>)
    requires all == r.(checkPow := (h: Header) => true) && UnclesError(all, block, prevHeaders, recent) == None
    ensures UnclesError(r, block, prevHeaders, recent)
         == if forall i :: 0 <= i < |block.uncles| ==> r.checkPow(block.uncles[i]) then None else Some(PowAssertion)
  {
    var ancestors := AncestorChain(block, prevHeaders);
    SameHashes(r, all, ancestors);
    SameHashes(r, all, if |ancestors| < 2 then [] else ancestors[2..]);
    PowDecides(r, all, block.uncles, ancestors, Barred(r, block, prevHeaders, recent));
  }

  lemma {:induction false} SameHashes(r: Rules, all: Rules, headers: seq<Header>)
    requires all == r.(checkPow := (h: Header) => true)
    ensures Hashes(all, headers) == Hashes(r, headers)
    ensures forall hash :: Find(all, headers, hash) == Find(r, headers, hash)
  {
    if headers != [] { SameHashes(r, all, headers[1..]); }
  }

  lemma {:induction false} PowDecides(r: Rules, all: Rules, uncles: seq<Header>, ancestors: seq<Header>,
      ineligible: set<Hash>)
    requires ancestors != [] && all == r.(checkPow := (h: Header) => true)
    requires CheckUncles(all, uncles, ancestors, ineligible) == None
    ensures CheckUncles(r, uncles, ancestors, ineligible)
         == if forall i :: 0 <= i < |uncles| ==> r.checkPow(uncles[i]) then None else Some(PowAssertion)
    decreases |uncles|
  {
    if uncles != [] {
      SameHashes(r, all, ancestors);
      if |ancestors| >= 2 { SameHashes(r, all, ancestors[2..]); }
      PowDecides(r, all, uncles[1..], ancestors, ineligible + {r.hash(uncles[0])});
      assert forall i :: 0 < i < |uncles| ==> uncles[i] == uncles[1..][i - 1];
      assert (forall i :: 0 <= i < |uncles| ==> r.checkPow(uncles[i])) <==>
             r.checkPow(uncles[0]) && forall i :: 0 <= i < |uncles[1..]| ==> r.checkPow(uncles[1..][i]);
    }
  }

  /** What an accepted uncle satisfies. */
  lemma {:induction false} CheckedUncle(r: Rules, uncles: seq<Header>, ancestors: seq<Header>, ineligible: set<Hash>,
      i: nat)
    requires ancestors != [] && i < |uncles| && CheckUncles(r, uncles, ancestors, ineligible) == None
    ensures |ancestors| >= 2 && uncles[i].prevhash in Hashes(r, ancestors[2..])
    ensures Find(r, ancestors, uncles[i].prevhash).Some?
    ensures uncles[i].number == Find(r, ancestors, uncles[i].prevhash).value.number + 1
    ensures r.hash(uncles[i]) !in ineligible
    ensures forall j :: 0 <= j < i ==> r.hash(uncles[j]) != r.hash(uncles[i])
    decreases i
  {
    if i > 0 {
      var more := ineligible + {r.hash(uncles[0])};
      CheckedUncle(r, uncles[1..], ancestors, more, i - 1);
      forall j | 0 <= j < i ensures r.hash(uncles[j]) != r.hash(uncles[i]) {
        if j > 0 { assert uncles[j] == uncles[1..][j - 1]; }
      }
    }
  }

  /** Uncles that pass alone, and differ, pass together. */
  lemma {:induction false} AllPass(r: Rules, uncles: seq<Header>, ancestors: seq<Header>, ineligible: set<Hash>)
    requires ancestors != []
    requires forall i :: 0 <= i < |uncles| ==> CheckUncle(r, uncles[i], ancestors, ineligible) == None
    requires forall i, j :: 0 <= i < j < |uncles| ==> r.hash(uncles[i]) != r.hash(uncles[j])
    ensures CheckUncles(r, uncles, ancestors, ineligible) == None
    decreases |uncles|
  {
    if uncles != [] {
      var more := ineligible + {r.hash(uncles[0])};
      forall i | 0 <= i < |uncles[1..]| ensures CheckUncle(r, uncles[1..][i], ancestors, more) == None {
        assert uncles[1..][i] == uncles[i + 1];
        assert CheckUncle(r, uncles[i + 1], ancestors, ineligible) == None;
      }
      AllPass(r, uncles[1..], ancestors, more);
    }
  }

  // ---- along a chain ----

  /** Different headers have different hashes. */
  ghost predicate Injective(r: Rules) {
    forall a, b :: r.hash(a) == r.hash(b) ==> a == b
  }

  /** The header that the i-th block above genesis stands on. */
  function Under(genesis: Header, chain: seq<Block>, i: nat): Header
    requires i <= |chain|
  {
    if i == 0 then genesis else chain[i - 1].header
  }

  /** Blocks above the genesis header, each on top of the one before. */
  ghost predicate Linked(r: Rules, genesis: Header, chain: seq<Block>) {
    forall i :: 0 <= i < |chain| ==>
      && chain[i].header.number == genesis.number + 1 + i
      && chain[i].header.prevhash == r.hash(Under(genesis, chain, i))
  }

  /** All headers of the chain, the newest first, down to the genesis header. */
  ghost function HeadersBack(genesis: Header, chain: seq<Block>): (o: seq<Header>)
    ensures |o| == |chain| + 1 && o[|chain|] == genesis
    ensures forall i :: 0 <= i < |chain| ==> o[i] == chain[|chain| - 1 - i].header
  {
    if chain == [] then [genesis] else [chain[|chain| - 1].header] + HeadersBack(genesis, chain[..|chain| - 1])
  }

  /** `prev_headers` may be cut short, but not below what the uncle checks look at. */
  ghost predicate KnowsHeaders(genesis: Header, chain: seq<Block>, prev: seq<Header>) {
    && prev <= HeadersBack(genesis, chain)
    && (|prev| > MAX_UNCLE_DEPTH || |prev| == |chain| + 1)
  }

  /** The uncles of the last five blocks are remembered, under their numbers; older ones are too old to be included. */
  ghost predicate Remembers(r: Rules, chain: seq<Block>, recent: map<int, seq<Hash>>) {
    forall i :: 0 <= i < |chain| && |chain| - MAX_UNCLE_DEPTH < i ==>
      chain[i].header.number in recent && recent[chain[i].header.number] == Hashes(r, chain[i].uncles)
  }

  /** No uncle is included twice. */
  ghost predicate NoneTwice(chain: seq<Block>) {
    forall i, j, a, b :: 0 <= i < |chain| && 0 <= j < |chain| && 0 <= a < |chain[i].uncles| && 0 <= b < |chain[j].uncles| ==>
      chain[i].uncles[a] == chain[j].uncles[b] ==> i == j && a == b
  }

  /** No uncle is the genesis header, an ancestor of its includer or the includer itself. */
  ghost predicate NoneAncestor(genesis: Header, chain: seq<Block>) {
    forall i, a :: 0 <= i < |chain| && 0 <= a < |chain[i].uncles| ==>
      chain[i].uncles[a] != genesis && forall j :: 0 <= j <= i ==> chain[i].uncles[a] != chain[j].header
  }

  /** Every uncle is one to six numbers below its includer. */
  ghost predicate AllNear(chain: seq<Block>) {
    forall i, a :: 0 <= i < |chain| && 0 <= a < |chain[i].uncles| ==> Near(chain[i], chain[i].uncles[a])
  }

  predicate Near(block: Block, u: Header) {
    1 <= block.header.number - u.number <= MAX_UNCLE_DEPTH
  }

  ghost predicate Safe(genesis: Header, chain: seq<Block>) {
    NoneTwice(chain) && NoneAncestor(genesis, chain) && AllNear(chain)
  }

  /** The block fits on the chain and passes the uncle checks. */
  ghost predicate Accepted(r: Rules, genesis: Header, chain: seq<Block>, block: Block, prev: seq<Header>,
      recent: map<int, seq<Hash>>)
  {
    && Injective(r)
    && Linked(r, genesis, chain + [block])
    && KnowsHeaders(genesis, chain, prev)
    && Remembers(r, chain, recent)
    && UnclesError(r, block, prev, recent) == None
  }

  /** The uncle is new: not in the ancestors looked at, not remembered, and not earlier in the block. */
  ghost predicate NewUncle(r: Rules, block: Block, prev: seq<Header>, recent: map<int, seq<Hash>>, a: nat)
    requires a < |block.uncles|
  {
    && r.hash(block.uncles[a]) !in Barred(r, block, prev, recent)
    && forall j :: 0 <= j < a ==> block.uncles[j] != block.uncles[a]
  }

  /** The uncle is one number above the k-th of the headers checked, which is not the block itself or its parent. */
  ghost predicate StandsOn(ancestors: seq<Header>, u: Header, k: nat) {
    2 <= k < |ancestors| && u.number == ancestors[k].number + 1
  }

  /** The k-th previous header is k + 1 below the block. */
  lemma NumberBack(r: Rules, genesis: Header, chain: seq<Block>, block: Block, k: nat)
    requires Linked(r, genesis, chain + [block]) && k <= |chain|
    ensures HeadersBack(genesis, chain)[k].number == block.header.number - 1 - k
  {
    var all := chain + [block];
    assert all[|chain|] == block;
    if k < |chain| { assert all[|chain| - 1 - k] == chain[|chain| - 1 - k]; }
  }

  lemma AcceptedUncle(r: Rules, genesis: Header, chain: seq<Block>, block: Block, prev: seq<Header>,
      recent: map<int, seq<Hash>>, a: nat)
    requires Accepted(r, genesis, chain, block, prev, recent) && a < |block.uncles|
    ensures NewUncle(r, block, prev, recent, a)
    ensures |AncestorChain(block, prev)| >= 2
    ensures exists k :: StandsOn(AncestorChain(block, prev), block.uncles[a], k)
  {
    hide Linked, Remembers, KnowsHeaders, Barred, AncestorChain;
    var ancestors := AncestorChain(block, prev);
    CheckedUncle(r, block.uncles, ancestors, Barred(r, block, prev, recent), a);
    var u := block.uncles[a];
    var k :| 0 <= k < |ancestors[2..]| && Hashes(r, ancestors[2..])[k] == u.prevhash;
    assert r.hash(ancestors[k + 2]) == r.hash(Find(r, ancestors, u.prevhash).value);
    assert StandsOn(ancestors, u, k + 2);
  }

  /** An accepted uncle hangs two to seven back, so it is one to six numbers below. */
  lemma AcceptedNear(r: Rules, genesis: Header, chain: seq<Block>, block: Block, prev: seq<Header>,
      recent: map<int, seq<Hash>>, a: nat)
    requires Accepted(r, genesis, chain, block, prev, recent) && a < |block.uncles|
    ensures Near(block, block.uncles[a])
  {
    hide Remembers, UnclesError, Linked;
    AcceptedUncle(r, genesis, chain, block, prev, recent, a);
    var k: nat :| StandsOn(AncestorChain(block, prev), block.uncles[a], k);
    NumberBack(r, genesis, chain, block, k - 1);
  }

  /** An ancestor as near as an uncle is among the headers checked. */
  lemma NearAncestor(r: Rules, genesis: Header, chain: seq<Block>, block: Block, prev: seq<Header>,
      recent: map<int, seq<Hash>>, k: nat)
    requires Linked(r, genesis, chain + [block]) && KnowsHeaders(genesis, chain, prev) && k <= |chain|
    requires Near(block, HeadersBack(genesis, chain)[k])
    ensures r.hash(HeadersBack(genesis, chain)[k]) in Barred(r, block, prev, recent)
  {
    NumberBack(r, genesis, chain, block, k);
    hide Linked;
    var ancestors := AncestorChain(block, prev);
    assert ancestors[k + 1] == prev[k];
    assert Hashes(r, ancestors)[k + 1] == r.hash(prev[k]);
  }

  lemma NotAncestor(r: Rules, genesis: Header, chain: seq<Block>, block: Block, prev: seq<Header>,
      recent: map<int, seq<Hash>>, a: nat)
    requires Accepted(r, genesis, chain, block, prev, recent) && a < |block.uncles|
    ensures block.uncles[a] != genesis && block.uncles[a] != block.header
    ensures forall j :: 0 <= j < |chain| ==> block.uncles[a] != chain[j].header
  {
    AcceptedNear(r, genesis, chain, block, prev, recent, a);
    AcceptedUncle(r, genesis, chain, block, prev, recent, a);
    hide UnclesError, AncestorChain, Barred, Linked, Remembers;
    var back := HeadersBack(genesis, chain);
    forall k | 0 <= k <= |chain| ensures block.uncles[a] != back[k] {
      if block.uncles[a] == back[k] { NearAncestor(r, genesis, chain, block, prev, recent, k); }
    }
    forall j | 0 <= j < |chain| ensures block.uncles[a] != chain[j].header {
      assert back[|chain| - 1 - j] == chain[j].header;
    }
  }

  /** An uncle of an earlier block that is near enough to be included again is remembered. */
  lemma NearUncle(r: Rules, genesis: Header, chain: seq<Block>, block: Block, prev: seq<Header>,
      recent: map<int, seq<Hash>>, i: nat, b: nat)
    requires Linked(r, genesis, chain + [block]) && Remembers(r, chain, recent)
    requires i < |chain| && b < |chain[i].uncles| && Near(chain[i], chain[i].uncles[b])
    requires Near(block, chain[i].uncles[b])
    ensures r.hash(chain[i].uncles[b]) in Barred(r, block, prev, recent)
  {
    hide AncestorChain, HeadersBack;
    var all := chain + [block];
    assert all[|chain|] == block && all[i] == chain[i];
    assert Hashes(r, chain[i].uncles)[b] == r.hash(chain[i].uncles[b]);
    assert r.hash(chain[i].uncles[b]) in recent[chain[i].header.number];
  }

  lemma NotIncludedBefore(r: Rules, genesis: Header, chain: seq<Block>, block: Block, prev: seq<Header>,
      recent: map<int, seq<Hash>>, a: nat, i: nat, b: nat)
    requires Accepted(r, genesis, chain, block, prev, recent) && a < |block.uncles|
    requires i < |chain| && b < |chain[i].uncles| && Near(chain[i], chain[i].uncles[b])
    ensures block.uncles[a] != chain[i].uncles[b]
  {
    AcceptedNear(r, genesis, chain, block, prev, recent, a);
    AcceptedUncle(r, genesis, chain, block, prev, recent, a);
    hide UnclesError, AncestorChain, KnowsHeaders, HeadersBack, Linked, Remembers, Barred;
    if block.uncles[a] == chain[i].uncles[b] { NearUncle(r, genesis, chain, block, prev, recent, i, b); }
  }

  lemma KeepsNoneTwice(r: Rules, genesis: Header, chain: seq<Block>, block: Block, prev: seq<Header>,
      recent: map<int, seq<Hash>>)
    requires Safe(genesis, chain) && Accepted(r, genesis, chain, block, prev, recent)
    ensures NoneTwice(chain + [block])
  {
    hide UnclesError, AncestorChain, Linked, Remembers, Barred, Accepted, NoneAncestor;
    forall i, a, b | 0 <= i < |chain| && 0 <= a < |chain[i].uncles| && 0 <= b < |block.uncles| ensures chain[i].uncles[a] != block.uncles[b] {
      NotIncludedBefore(r, genesis, chain, block, prev, recent, b, i, a);
    }
    forall a, b | 0 <= a < |block.uncles| && 0 <= b < |block.uncles| && block.uncles[a] == block.uncles[b] ensures a == b {
      AcceptedUncle(r, genesis, chain, block, prev, recent, a);
      AcceptedUncle(r, genesis, chain, block, prev, recent, b);
    }
    TwiceStep(chain, block);
  }

  lemma TwiceStep(chain: seq<Block>, block: Block)
    requires NoneTwice(chain)
    requires forall i, a, b :: 0 <= i < |chain| && 0 <= a < |chain[i].uncles| && 0 <= b < |block.uncles| ==> chain[i].uncles[a] != block.uncles[b]
    requires forall a, b :: 0 <= a < |block.uncles| && 0 <= b < |block.uncles| ==> block.uncles[a] == block.uncles[b] ==> a == b
    ensures NoneTwice(chain + [block])
  {
    var all := chain + [block];
    assert all[|chain|] == block && forall i :: 0 <= i < |chain| ==> all[i] == chain[i];
  }

  lemma AncestorStep(genesis: Header, chain: seq<Block>, block: Block)
    requires NoneAncestor(genesis, chain) && AllNear(chain)
    requires forall a :: 0 <= a < |block.uncles| ==> block.uncles[a] != genesis && block.uncles[a] != block.header && Near(block, block.uncles[a])
    requires forall a, j :: 0 <= a < |block.uncles| && 0 <= j < |chain| ==> block.uncles[a] != chain[j].header
    ensures NoneAncestor(genesis, chain + [block]) && AllNear(chain + [block])
  {
    var all := chain + [block];
    assert all[|chain|] == block && forall i :: 0 <= i < |chain| ==> all[i] == chain[i];
  }

  /** One more accepted block keeps the chain safe. */
  lemma AcceptKeepsSafe(r: Rules, genesis: Header, chain: seq<Block>, block: Block, prev: seq<Header>,
      recent: map<int, seq<Hash>>)
    requires Safe(genesis, chain) && Accepted(r, genesis, chain, block, prev, recent)
    ensures Safe(genesis, chain + [block])
  {
    hide UnclesError, AncestorChain, Linked, Remembers, Barred, Accepted, NoneAncestor, NoneTwice;
    KeepsNoneTwice(r, genesis, chain, block, prev, recent);
    forall a | 0 <= a < |block.uncles|
      ensures block.uncles[a] != genesis && block.uncles[a] != block.header && Near(block, block.uncles[a])
      ensures forall j :: 0 <= j < |chain| ==> block.uncles[a] != chain[j].header {
      AcceptedNear(r, genesis, chain, block, prev, recent, a);
      NotAncestor(r, genesis, chain, block, prev, recent, a);
    }
    AncestorStep(genesis, chain, block);
  }

  // ---- rewards ----

  /** The reward of an uncle's miner, with floor division. */
  function UncleReward(blockReward: int, uncleNumber: int, blockNumber: int): int {
    blockReward * (UNCLE_DEPTH_PENALTY_FACTOR + uncleNumber - blockNumber) / UNCLE_DEPTH_PENALTY_FACTOR
  }

  /** Positive and below the block reward for a block reward of at least 4, and the smaller the further back. */
  lemma RewardBounds(blockReward: int, block: Block, u: Header)
    requires Near(block, u)
    ensures blockReward >= 4 ==> 0 < UncleReward(blockReward, u.number, block.header.number) < blockReward
    ensures blockReward >= 4 ==> UncleReward(blockReward, u.number - 1, block.header.number) <= UncleReward(blockReward, u.number, block.header.number)
    ensures 0 < blockReward < 4 ==> UncleReward(blockReward, block.header.number - MAX_UNCLE_DEPTH, block.header.number) == 0
  {
    var d := block.header.number - u.number;
    MulMonotone(if blockReward > 0 then blockReward else 0, 2, 8 - d);
  }

  // ---- building a block ----

  /** A stored child of a known header passed the header checks. */
  predicate ValidChild(r: Rules, parent: Header, u: Header) {
    && u.prevhash == r.hash(parent) && u.number == parent.number + 1 && u.timestamp >= parent.timestamp
    && u.difficulty == r.calcDifficulty(parent, u.timestamp) && u.gasUsed <= u.gasLimit && r.checkPow(u)
  }

  /** Each header is one number below the one before. */
  predicate Descending(prev: seq<Header>) {
    forall i :: 0 <= i < |prev| ==> prev[i].number == prev[0].number - i
  }

  function ChildrenOf(children: map<Hash, seq<Hash>>, h: Hash): seq<Hash> {
    if h in children then children[h] else []
  }

  /** The child index names stored headers by their hashes, each once. */
  ghost predicate ChildrenKnown(r: Rules, prev: seq<Header>, children: map<Hash, seq<Hash>>, headers: map<Hash, Header>)
  {
    forall i :: 0 <= i < |prev| ==> KnownBelow(r, prev[i], ChildrenOf(children, r.hash(prev[i])), headers)
  }

  ghost predicate KnownBelow(r: Rules, parent: Header, cs: seq<Hash>, headers: map<Hash, Header>) {
    && (forall j :: 0 <= j < |cs| ==> cs[j] in headers && r.hash(headers[cs[j]]) == cs[j] && ValidChild(r, parent, headers[cs[j]]))
    && (forall j, k :: 0 <= j < k < |cs| ==> cs[j] != cs[k])
  }

  function Nearest(prev: seq<Header>): nat {
    if |prev| < MAX_UNCLE_DEPTH then |prev| else MAX_UNCLE_DEPTH
  }

  /** The hashes a candidate must not have. */
  ghost predicate Passed(r: Rules, prev: seq<Header>, recent: map<int, seq<Hash>>, h: Hash) {
    || (exists m :: m in recent && h in recent[m])
    || (exists k :: 0 <= k < Nearest(prev) && r.hash(prev[k]) == h)
  }

  /** A candidate: a stored child of one of the headers 1 to 5 back that is none of the ineligible ones. */
  ghost predicate Candidate(r: Rules, prev: seq<Header>, recent: map<int, seq<Hash>>, u: Header) {
    && !Passed(r, prev, recent, r.hash(u))
    && exists i :: 1 <= i < Nearest(prev) && ValidChild(r, prev[i], u)
  }

  method RecentHashes(recent: map<int, seq<Hash>>) returns (hashes: set<Hash>)
    ensures forall h :: h in hashes <==> exists m :: m in recent && h in recent[m]
  {
    hashes := {};
    var keys: set<int> := recent.Keys;
    while keys != {}
      invariant keys <= recent.Keys
      invariant forall h :: h in hashes <==> exists m :: m in recent && m !in keys && h in recent[m]
      decreases |keys|
    {
      assert (forall m :: m !in keys) ==> keys == {};
      var m :| m in keys;
      keys := keys - {m};
      hashes := hashes + set h | h in recent[m];
    }
  }

  method IneligibleHashes(r: Rules, prev: seq<Header>, recent: map<int, seq<Hash>>) returns (ineligible: set<Hash>)
    ensures forall h :: h in ineligible <==> Passed(r, prev, recent, h)
  {
    ineligible := RecentHashes(recent);
    for i := 0 to Nearest(prev)
      invariant forall h :: h in ineligible <==>
        (exists m :: m in recent && h in recent[m]) || (exists k :: 0 <= k < i && r.hash(prev[k]) == h)
    {
      ineligible := ineligible + {r.hash(prev[i])};
    }
  }

  ghost predicate AllTakenBelow(r: Rules, cs: seq<Hash>, ineligible: set<Hash>, uncles: seq<Header>) {
    forall c :: c in cs && c !in ineligible ==> exists j :: 0 <= j < |uncles| && r.hash(uncles[j]) == c
  }

  /** Every child that could be taken from the first n headers was. */
  ghost predicate AllTaken(r: Rules, prev: seq<Header>, n: nat, children: map<Hash, seq<Hash>>, ineligible: set<Hash>,
      uncles: seq<Header>)
  {
    forall i :: 1 <= i < n && i < |prev| ==> AllTakenBelow(r, ChildrenOf(children, r.hash(prev[i])), ineligible, uncles)
  }

  ghost predicate Distinct(uncles: seq<Header>) {
    forall j, k :: 0 <= j < k < |uncles| ==> uncles[j] != uncles[k]
  }

  ghost predicate NumbersAbove(uncles: seq<Header>, number: int) {
    forall j :: 0 <= j < |uncles| ==> uncles[j].number > number
  }

  /** Appends the children of one header that are not in the table, up to two uncles in all. */
  method Collect(r: Rules, prev: seq<Header>, recent: map<int, seq<Hash>>, i: nat, cs: seq<Hash>,
      headers: map<Hash, Header>, table: set<Hash>, before: seq<Header>) returns (uncles: seq<Header>)
    requires 1 <= i < Nearest(prev) && KnownBelow(r, prev[i], cs, headers)
    requires forall h :: h in table <==> Passed(r, prev, recent, h)
    requires Distinct(before) && NumbersAbove(before, prev[i].number + 1) && |before| <= 2
    requires forall j :: 0 <= j < |before| ==> Candidate(r, prev, recent, before[j])
    ensures before <= uncles && |uncles| <= 2 && Distinct(uncles) && NumbersAbove(uncles, prev[i].number)
    ensures forall j :: 0 <= j < |uncles| ==> Candidate(r, prev, recent, uncles[j])
    ensures |uncles| < 2 ==> AllTakenBelow(r, cs, table, uncles)
  {
    hide Passed, Candidate;
    uncles := before;
    for c := 0 to |cs|
      invariant before <= uncles && |uncles| <= 2 && Distinct(uncles) && NumbersAbove(uncles, prev[i].number)
      invariant forall j :: 0 <= j < |uncles| ==> Candidate(r, prev, recent, uncles[j])
      invariant forall j, k :: 0 <= j < |uncles| && c <= k < |cs| ==> uncles[j] != headers[cs[k]]
      invariant |uncles| < 2 ==> AllTakenBelow(r, cs[..c], table, uncles)
    {
      ghost var was := uncles;
      if cs[c] !in table && |uncles| < 2 {
        IsCandidate(r, prev, recent, i, headers[cs[c]]);
        uncles := uncles + [headers[cs[c]]];
      }
      assert cs[..c + 1] == cs[..c] + [cs[c]];
      if |uncles| < 2 {
        if cs[c] !in table { assert r.hash(uncles[|was|]) == cs[c]; }
        TakenStep(r, cs[..c], cs[c], table, was, uncles);
      }
    }
    assert cs[..|cs|] == cs;
  }

  lemma TakenStep(r: Rules, cs: seq<Hash>, c: Hash, table: set<Hash>, was: seq<Header>, uncles: seq<Header>)
    requires AllTakenBelow(r, cs, table, was) && was <= uncles
    requires c in table || exists j :: 0 <= j < |uncles| && r.hash(uncles[j]) == c
    ensures AllTakenBelow(r, cs + [c], table, uncles)
  {
    forall d | d in cs + [c] && d !in table ensures exists j :: 0 <= j < |uncles| && r.hash(uncles[j]) == d {
      if d in cs {
        var j :| 0 <= j < |was| && r.hash(was[j]) == d;
        assert r.hash(uncles[j]) == d;
      }
    }
  }

  lemma TakenFrame(r: Rules, prev: seq<Header>, n: nat, children: map<Hash, seq<Hash>>, table: set<Hash>,
      was: seq<Header>, uncles: seq<Header>)
    requires AllTaken(r, prev, n, children, table, was) && was <= uncles
    ensures AllTaken(r, prev, n, children, table, uncles)
  {
    forall i | 1 <= i < n && i < |prev| ensures AllTakenBelow(r, ChildrenOf(children, r.hash(prev[i])), table, uncles) {
      var cs := ChildrenOf(children, r.hash(prev[i]));
      assert AllTakenBelow(r, cs, table, was);
      forall d | d in cs && d !in table ensures exists j :: 0 <= j < |uncles| && r.hash(uncles[j]) == d {
        var j :| 0 <= j < |was| && r.hash(was[j]) == d;
        assert r.hash(uncles[j]) == d;
      }
    }
  }

  /** Fills the table of ineligible hashes and collects up to two children that are not in it, the nearest ones; it finds fewer
      than two only if there are no others. */
  method GetUncleCandidates(r: Rules, prev: seq<Header>, recent: map<int, seq<Hash>>, children: map<Hash, seq<Hash>>,
      headers: map<Hash, Header>) returns (uncles: seq<Header>, ghost ineligible: set<Hash>)
    requires Descending(prev) && ChildrenKnown(r, prev, children, headers)
    ensures |uncles| <= 2 && Distinct(uncles)
    ensures forall j :: 0 <= j < |uncles| ==> Candidate(r, prev, recent, uncles[j])
    ensures forall h :: h in ineligible <==> Passed(r, prev, recent, h)
    ensures |uncles| < 2 ==> AllTaken(r, prev, Nearest(prev), children, ineligible, uncles)
    ensures |uncles| == 2 ==>
      exists i: nat :: 1 <= i < Nearest(prev) && i < |prev| && NumbersAbove(uncles, prev[i].number) && AllTaken(r, prev, i, children, ineligible, uncles)
  {
    hide Passed, Candidate, KnownBelow, AllTakenBelow, ChildrenOf;
    var table := IneligibleHashes(r, prev, recent);
    ineligible := table;
    uncles := [];
    var i := 1;
    while i < Nearest(prev)
      invariant 1 <= i && |uncles| <= 2 && Distinct(uncles)
      invariant i < |prev| ==> NumbersAbove(uncles, prev[i].number + 1)
      invariant forall j :: 0 <= j < |uncles| ==> Candidate(r, prev, recent, uncles[j])
      invariant |uncles| < 2 && AllTaken(r, prev, i, children, ineligible, uncles)
    {
      ghost var was := uncles;
      uncles := Collect(r, prev, recent, i, ChildrenOf(children, r.hash(prev[i])), headers, table, uncles);
      TakenFrame(r, prev, i, children, table, was, uncles);
      if |uncles| == 2 { break; }
      i := i + 1;
    }
  }

  lemma IsCandidate(r: Rules, prev: seq<Header>, recent: map<int, seq<Hash>>, i: nat, u: Header)
    requires 1 <= i < Nearest(prev) && ValidChild(r, prev[i], u) && !Passed(r, prev, recent, r.hash(u))
    ensures Candidate(r, prev, recent, u) && u.number == prev[i].number + 1
  {
  }

  /** A block on top of these headers, checked with what is remembered then: the block's own entry was added. */
  ghost predicate OnTop(r: Rules, block: Block, prev: seq<Header>, recent: map<int, seq<Hash>>,
      recentThen: map<int, seq<Hash>>)
  {
    && Descending(prev) && prev != [] && block.header.number == prev[0].number + 1
    && r.hashUncles(block.uncles) == block.header.unclesHash
    && forall m :: m in recentThen && m < block.header.number ==> m in recent && recentThen[m] == recent[m]
  }

  lemma CandidateNotBarred(r: Rules, block: Block, prev: seq<Header>, recent: map<int, seq<Hash>>,
      recentThen: map<int, seq<Hash>>, u: Header, i: nat)
    requires Injective(r) && OnTop(r, block, prev, recent, recentThen) && !Passed(r, prev, recent, r.hash(u))
    requires 1 <= i < Nearest(prev) && ValidChild(r, prev[i], u)
    ensures r.hash(u) !in Barred(r, block, prev, recentThen)
  {
    var ancestors := AncestorChain(block, prev);
    forall k | 0 <= k < |ancestors| ensures r.hash(ancestors[k]) != r.hash(u) {
      if 1 <= k <= MAX_UNCLE_DEPTH { assert ancestors[k] == prev[k - 1]; }
    }
  }

  lemma CandidatePasses(r: Rules, block: Block, prev: seq<Header>, recent: map<int, seq<Hash>>,
      recentThen: map<int, seq<Hash>>, u: Header)
    requires Injective(r) && OnTop(r, block, prev, recent, recentThen) && Candidate(r, prev, recent, u)
    ensures CheckUncle(r, u, AncestorChain(block, prev), Barred(r, block, prev, recentThen)) == None
    ensures u.number < block.header.number
  {
    hide Barred, AncestorChain, Passed;
    var i :| 1 <= i < Nearest(prev) && ValidChild(r, prev[i], u);
    CandidateNotBarred(r, block, prev, recent, recentThen, u, i);
    InChain(block, prev, i);
    ChildPasses(r, u, AncestorChain(block, prev), i + 1, Barred(r, block, prev, recentThen));
  }

  lemma InChain(block: Block, prev: seq<Header>, i: nat)
    requires i < Nearest(prev)
    ensures i + 1 < |AncestorChain(block, prev)| && AncestorChain(block, prev)[i + 1] == prev[i]
  {
  }

  lemma ChildPasses(r: Rules, u: Header, ancestors: seq<Header>, k: nat, ineligible: set<Hash>)
    requires Injective(r) && 2 <= k < |ancestors| && ValidChild(r, ancestors[k], u) && r.hash(u) !in ineligible
    ensures CheckUncle(r, u, ancestors, ineligible) == None
  {
    assert Hashes(r, ancestors[2..])[k - 2] == u.prevhash;
    assert Hashes(r, ancestors)[k] == u.prevhash;
  }

  /** A block built on the candidates passes the whole validation. */
  lemma CandidatesValidate(r: Rules, block: Block, prev: seq<Header>, recent: map<int, seq<Hash>>,
      recentThen: map<int, seq<Hash>>)
    requires Injective(r) && OnTop(r, block, prev, recent, recentThen)
    requires |block.uncles| <= 2 && Distinct(block.uncles)
    requires forall j :: 0 <= j < |block.uncles| ==> Candidate(r, prev, recent, block.uncles[j])
    ensures UnclesError(r, block, prev, recentThen) == None
  {
    hide Candidate, Barred, AncestorChain;
    forall j | 0 <= j < |block.uncles|
      ensures CheckUncle(r, block.uncles[j], AncestorChain(block, prev), Barred(r, block, prev, recentThen)) == None
      ensures block.uncles[j].number < block.header.number {
      CandidatePasses(r, block, prev, recent, recentThen, block.uncles[j]);
    }
    AllPass(r, block.uncles, AncestorChain(block, prev), Barred(r, block, prev, recentThen));
  }

  // ---- rewards of an account ----

  /** The rewards of the first n uncles that go to an account. */
  function UncleShare(blockReward: int, block: Block, n: nat, a: Address): int
    requires n <= |block.uncles|
  {
    if n == 0 then 0
    else
      UncleShare(blockReward, block, n - 1, a)
      + if block.uncles[n - 1].coinbase == a then UncleReward(blockReward, block.uncles[n - 1].number, block.header.number) else 0
  }

  function Share(blockReward: int, nephewReward: int, block: Block, a: Address): int {
    UncleShare(blockReward, block, |block.uncles|, a)
    + if block.header.coinbase == a then blockReward + nephewReward * |block.uncles| else 0
  }

  /** In an accepted block every uncle's miner gets something, and only coinbases get anything. */
  lemma {:induction false} SharesPositive(blockReward: int, block: Block, n: nat, a: Address)
    requires blockReward >= 4 && n <= |block.uncles|
    requires forall i :: 0 <= i < |block.uncles| ==> Near(block, block.uncles[i])
    ensures 0 <= UncleShare(blockReward, block, n, a) <= n * blockReward
    ensures UncleShare(blockReward, block, n, a) > 0 <==> exists i :: 0 <= i < n && block.uncles[i].coinbase == a
  {
    if n > 0 {
      SharesPositive(blockReward, block, n - 1, a);
      RewardBounds(blockReward, block, block.uncles[n - 1]);
      assert n * blockReward == (n - 1) * blockReward + blockReward;
    }
  }

  // ---- the state of the chain's head ----

  predicate Extends(r: Rules, prev: seq<Header>, block: Block) {
    prev != [] && block.header.prevhash == r.hash(prev[0]) && block.header.number == prev[0].number + 1
  }

  lemma RecentStep(recent: map<int, seq<Hash>>, keys: set<int>, m: int, number: int)
    requires m in keys && keys <= recent.Keys
    ensures RecentFrom(recent - (keys - {m}), number)
         == RecentFrom(recent - keys, number) + if number - MAX_UNCLE_DEPTH <= m < number then set h | h in recent[m] else {}
  {
    var with := recent - (keys - {m});
    assert forall k :: k in with <==> k in recent - keys || k == m;
    var added := if number - MAX_UNCLE_DEPTH <= m < number then set h | h in recent[m] else {};
    forall h ensures h in RecentFrom(with, number) <==> h in RecentFrom(recent - keys, number) + added {
      if h in RecentFrom(recent - keys, number) {
        var k :| k in (recent - keys).Keys && number - MAX_UNCLE_DEPTH <= k < number && h in recent[k];
        assert k in with.Keys && h in with[k];
      }
      if h in added { assert m in with.Keys && h in with[m]; }
    }
  }

  lemma KnowsFirst(r: Rules, genesis: Header, chain: seq<Block>, prev: seq<Header>)
    requires KnowsHeaders(genesis, chain, prev)
    ensures prev != [] && prev[0] == Under(genesis, chain, |chain|)
  {
    assert HeadersBack(genesis, chain)[0] == Under(genesis, chain, |chain|);
  }

  lemma LinkedStep(r: Rules, genesis: Header, chain: seq<Block>, block: Block, prev: seq<Header>)
    requires Linked(r, genesis, chain) && prev != [] && prev[0] == Under(genesis, chain, |chain|)
    requires block.header.prevhash == r.hash(prev[0]) && block.header.number == prev[0].number + 1
    ensures Linked(r, genesis, chain + [block])
  {
    var all := chain + [block];
    assert all[|chain|] == block;
    assert chain != [] ==> chain[|chain| - 1].header.number == genesis.number + |chain|;
    forall i | 0 <= i < |all|
      ensures all[i].header.number == genesis.number + 1 + i
      ensures all[i].header.prevhash == r.hash(Under(genesis, all, i)) {
      assert Under(genesis, all, i) == Under(genesis, chain, i);
      if i < |chain| { assert all[i] == chain[i]; }
    }
  }

  lemma RecentOther(recent: map<int, seq<Hash>>, number: int, hs: seq<Hash>)
    ensures RecentFrom(recent[number := hs], number) == RecentFrom(recent, number)
  {
    var with := recent[number := hs];
    forall h | h in RecentFrom(recent, number) ensures h in RecentFrom(with, number) {
      var k :| k in recent.Keys && number - MAX_UNCLE_DEPTH <= k < number && h in recent[k];
      assert k in with.Keys && h in with[k];
    }
  }

  /** The entry that initialization makes for the block itself changes neither what is remembered nor what is checked. */
  lemma NewEntry(r: Rules, genesis: Header, chain: seq<Block>, block: Block, prev: seq<Header>,
      recent: map<int, seq<Hash>>, recent': map<int, seq<Hash>>)
    requires Linked(r, genesis, chain + [block]) && Remembers(r, chain, recent)
    requires recent' == recent[block.header.number := Hashes(r, block.uncles)]
    ensures Remembers(r, chain, recent') && Remembers(r, chain + [block], recent')
    ensures UnclesError(r, block, prev, recent') == UnclesError(r, block, prev, recent)
  {
    RecentOther(recent, block.header.number, Hashes(r, block.uncles));
    hide CheckUncles, AncestorChain, RecentFrom;
    var all := chain + [block];
    assert all[|chain|] == block && forall i :: 0 <= i < |chain| ==> all[i] == chain[i];
  }

  lemma BuildAccepted(r: Rules, genesis: Header, chain: seq<Block>, block: Block, prev: seq<Header>,
      recent: map<int, seq<Hash>>)
    requires Injective(r) && Linked(r, genesis, chain + [block]) && KnowsHeaders(genesis, chain, prev)
    requires Remembers(r, chain, recent)
    requires UnclesError(r, block, prev, recent) == None
    ensures Accepted(r, genesis, chain, block, prev, recent)
  {
  }

  lemma AppliedKnows(r: Rules, genesis: Header, chain: seq<Block>, block: Block, prev: seq<Header>,
      recent: map<int, seq<Hash>>)
    requires Linked(r, genesis, chain + [block]) && KnowsHeaders(genesis, chain, prev)
    requires Remembers(r, chain + [block], recent)
    ensures KnowsHeaders(genesis, chain + [block], [block.header] + prev)
    ensures Remembers(r, chain + [block], recent - {block.header.number - MAX_UNCLE_DEPTH})
  {
    hide Linked, KnowsHeaders, Remembers;
    OneMoreHeader(genesis, chain, block, prev);
    Forgotten(r, genesis, chain, block, recent);
  }

  lemma OneMoreHeader(genesis: Header, chain: seq<Block>, block: Block, prev: seq<Header>)
    requires KnowsHeaders(genesis, chain, prev)
    ensures KnowsHeaders(genesis, chain + [block], [block.header] + prev)
  {
    var all := chain + [block];
    assert all[|chain|] == block && all[..|chain|] == chain;
    assert HeadersBack(genesis, all) == [block.header] + HeadersBack(genesis, chain);
  }

  /** What finalization forgets is no longer needed. */
  lemma Forgotten(r: Rules, genesis: Header, chain: seq<Block>, block: Block, recent: map<int, seq<Hash>>)
    requires Linked(r, genesis, chain + [block]) && Remembers(r, chain + [block], recent)
    ensures Remembers(r, chain + [block], recent - {block.header.number - MAX_UNCLE_DEPTH})
  {
    hide Under, Hashes;
    assert (chain + [block])[|chain|] == block;
  }

  // ---- states of other blocks ----

  const PREV_HEADER_DEPTH := 256

  /** The chain's blocks are stored under their hashes; the genesis block is stored as a marker. */
  ghost predicate Stored(r: Rules, genesis: Header, chain: seq<Block>, blocks: map<Hash, Block>) {
    && r.hash(genesis) !in blocks
    && forall i :: 0 <= i < |chain| ==> r.hash(chain[i].header) in blocks && blocks[r.hash(chain[i].header)] == chain[i]
  }

  lemma ParentStored(r: Rules, genesis: Header, chain: seq<Block>, blocks: map<Hash, Block>, i: nat)
    requires Linked(r, genesis, chain) && Stored(r, genesis, chain, blocks) && i < |chain|
    ensures if i == 0 then chain[i].header.prevhash !in blocks
            else chain[i].header.prevhash in blocks && blocks[chain[i].header.prevhash] == chain[i - 1]
  {
    assert chain[i].header.prevhash == r.hash(Under(genesis, chain, i));
  }

  /** The uncles of the blocks from a position on are remembered, as far as they are needed. */
  ghost predicate RemembersFrom(r: Rules, chain: seq<Block>, recent: map<int, seq<Hash>>, first: int) {
    forall i :: 0 <= i < |chain| && first <= i && |chain| - MAX_UNCLE_DEPTH < i ==>
      chain[i].header.number in recent && recent[chain[i].header.number] == Hashes(r, chain[i].uncles)
  }

  lemma RememberOne(r: Rules, genesis: Header, chain: seq<Block>, recent: map<int, seq<Hash>>, k: nat, number: int)
    requires Linked(r, genesis, chain) && k < |chain| && RemembersFrom(r, chain, recent, k + 1)
    requires number == chain[|chain| - 1].header.number - (|chain| - 1 - k)
    ensures RemembersFrom(r, chain, recent[number := Hashes(r, chain[k].uncles)], k)
  {
    hide Under, Hashes;
  }

  lemma RememberGenesis(r: Rules, genesis: Header, chain: seq<Block>, recent: map<int, seq<Hash>>,
      more: map<int, seq<Hash>>)
    requires Linked(r, genesis, chain) && RemembersFrom(r, chain, recent, 0)
    requires forall m :: m in more ==> m <= genesis.number
    ensures RemembersFrom(r, chain, recent + more, 0)
  {
    hide Under, Hashes;
  }

  lemma OneMoreBack(genesis: Header, chain: seq<Block>, prev: seq<Header>)
    requires prev <= HeadersBack(genesis, chain) && |prev| <= |chain|
    ensures prev + [if |prev| < |chain| then chain[|chain| - 1 - |prev|].header else genesis] <= HeadersBack(genesis, chain)
  {
  }

  /** Rebuilds, from the stored blocks, headers and uncles as good as those kept by applying the chain's blocks one by one. */
  method MkPoststateOfBlockhash(r: Rules, genesis: Header, genesisUncles: map<int, seq<Hash>>, blocks: map<Hash, Block>,
      block: Block, ghost chain: seq<Block>) returns (prevHeaders: seq<Header>, recentUncles: map<int, seq<Hash>>)
    requires Linked(r, genesis, chain) && Stored(r, genesis, chain, blocks) && chain != []
    requires chain[|chain| - 1] == block
    requires forall m :: m in genesisUncles ==> m <= genesis.number
    ensures KnowsHeaders(genesis, chain, prevHeaders) && Remembers(r, chain, recentUncles)
    // near the genesis block its own recent uncles are remembered too
    ensures |chain| <= PREV_HEADER_DEPTH ==>
              forall m :: m in genesisUncles && m >= block.header.number - MAX_UNCLE_DEPTH ==>
                m in recentUncles && recentUncles[m] == genesisUncles[m]
  {
    hide Stored, Linked, HeadersBack;
    prevHeaders, recentUncles := [], map[];
    var b, i, more := block, 0, true;
    while more && i < PREV_HEADER_DEPTH + 1
      invariant 0 <= i <= PREV_HEADER_DEPTH + 1 && i <= |chain| && (i == 0 ==> more)
      invariant if more && i < |chain| then b == chain[|chain| - 1 - i] else i == |chain| && !more
      invariant |prevHeaders| == i && prevHeaders <= HeadersBack(genesis, chain)
      invariant RemembersFrom(r, chain, recentUncles, |chain| - i)
    {
      ParentStored(r, genesis, chain, blocks, |chain| - 1 - i);
      OneMoreBack(genesis, chain, prevHeaders);
      RememberOne(r, genesis, chain, recentUncles, |chain| - 1 - i, block.header.number - i);
      prevHeaders := prevHeaders + [b.header];
      if i < MAX_UNCLE_DEPTH {
        recentUncles := recentUncles[block.header.number - i := Hashes(r, b.uncles)];
      }
      if b.header.prevhash in blocks {
        b := blocks[b.header.prevhash];
      } else {
        more := false;
      }
      i := i + 1;
    }
    if !more && i <= PREV_HEADER_DEPTH {
      OneMoreBack(genesis, chain, prevHeaders);
      prevHeaders := prevHeaders + [genesis];
      var near := map m | m in genesisUncles && m >= block.header.number - MAX_UNCLE_DEPTH :: genesisUncles[m];
      RememberGenesis(r, genesis, chain, recentUncles, near);
      recentUncles := recentUncles + near;
    }
  }
}
