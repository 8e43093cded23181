/**
 The cache of AMD verdicts (nns/chipstate.go). AMD's answer to a chip id is an oracle f; the cache
 exists so that f is not asked again about a chip it has vouched for.
 */
module Chips {
  import opened Sequences

  type ChipId = string

  datatype ChipVerification =
    ChipVerification(chipId: ChipId, verified: bool, inconclusive: bool, product: string, err: string)

  datatype ChipEntry = ChipEntry(verified: bool, product: string, verifiedAt: string)

  type Cache = map<ChipId, ChipEntry>

  type Amd = ChipId -> ChipVerification

  /** Whether a call ignores the cache, and when it records each new verdict. */
  datatype Mode = Mode(refresh: bool, clock: ChipId -> string)

  predicate Vouched(cache: Cache, chip: ChipId) {
    chip in cache && cache[chip].verified
  }

  /** The chips a call answers for: each non-empty id, once. */
  function Requested(chips: seq<ChipId>): set<ChipId> {
    set chip | chip in chips && chip != ""
  }

  /** The chips it has to ask AMD about. */
  function Asks(cache: Cache, chips: seq<ChipId>, mode: Mode): set<ChipId> {
    set chip | chip in Requested(chips) && (mode.refresh || !Vouched(cache, chip))
  }

  ghost predicate SameEntry(before: Cache, after: Cache, chip: ChipId) {
    (chip in before <==> chip in after) && (chip in before ==> after[chip] == before[chip])
  }

  /** What AMD's answer about one chip does to its entry. */
  ghost predicate Recorded(before: Cache, after: Cache, chip: ChipId, mode: Mode, f: Amd) {
    var v := f(chip);
    if v.verified then chip in after && after[chip] == ChipEntry(true, v.product, mode.clock(chip))
    else if mode.refresh && !v.inconclusive then chip !in after
    else SameEntry(before, after, chip)
  }

  /** The entries of the chips asked about change as the answers say, and no others change. */
  ghost predicate Updated(before: Cache, after: Cache, asked: set<ChipId>, mode: Mode, f: Amd) {
    forall chip ::
      if chip in asked then Recorded(before, after, chip, mode, f) else SameEntry(before, after, chip)
  }

  lemma NothingAsked(cache: Cache, mode: Mode, f: Amd)
    ensures Updated(cache, cache, ToSet([]), mode, f) && Distinct<ChipId>([])
    ensures Requested([]) == {} && Asks(cache, [], mode) == {}
  {
  }

  lemma OneMoreRequested(cache: Cache, chips: seq<ChipId>, i: nat, mode: Mode)
    requires i < |chips|
    ensures Asks(cache, chips[..i], mode) <= Requested(chips[..i])
    ensures chips[i] == "" || chips[i] in Requested(chips[..i]) ==>
              && Requested(chips[..i + 1]) == Requested(chips[..i])
              && Asks(cache, chips[..i + 1], mode) == Asks(cache, chips[..i], mode)
    ensures chips[i] != "" ==>
              && Requested(chips[..i + 1]) == Requested(chips[..i]) + {chips[i]}
              && Asks(cache, chips[..i + 1], mode) ==
                 Asks(cache, chips[..i], mode) + if mode.refresh || !Vouched(cache, chips[i]) then {chips[i]} else {}
  {
  }

  lemma NotAsked(before: Cache, after: Cache, asked: set<ChipId>, mode: Mode, f: Amd, chip: ChipId)
    requires Updated(before, after, asked, mode, f) && chip !in asked
    ensures SameEntry(before, after, chip)
  {
  }

  lemma OneMoreAsked(start: Cache, before: Cache, after: Cache, asked: set<ChipId>, chip: ChipId, mode: Mode, f: Amd)
    requires Updated(start, before, asked, mode, f)
    requires Recorded(start, after, chip, mode, f)
    requires forall other :: other != chip ==> SameEntry(before, after, other)
    ensures Updated(start, after, asked + {chip}, mode, f)
  {
    forall other | other != chip
      ensures if other in asked then Recorded(start, after, other, mode, f) else SameEntry(start, after, other)
    {
      assert SameEntry(before, after, other);
      assert if other in asked then Recorded(start, before, other, mode, f) else SameEntry(start, before, other);
    }
  }

  /** The cache a call leaves, entry by entry. */
  function NextCache(before: Cache, asked: set<ChipId>, mode: Mode, f: Amd): Cache {
    map chip | chip in before.Keys + asked
            && (if chip in asked then f(chip).verified || (chip in before && !(mode.refresh && !f(chip).inconclusive)) else true)
      :: if chip in asked && f(chip).verified then ChipEntry(true, f(chip).product, mode.clock(chip)) else before[chip]
  }

  /** The answers decide the cache: there is one way to record them. */
  lemma RecordedOneWay(before: Cache, after: Cache, asked: set<ChipId>, mode: Mode, f: Amd)
    ensures Updated(before, after, asked, mode, f) <==> after == NextCache(before, asked, mode, f)
  {
    var next := NextCache(before, asked, mode, f);
    forall chip
      ensures if chip in asked then Recorded(before, next, chip, mode, f) else SameEntry(before, next, chip)
    {
    }
    if Updated(before, after, asked, mode, f) {
      forall chip ensures SameEntry(after, next, chip) {
        assert if chip in asked then Recorded(before, after, chip, mode, f) else SameEntry(before, after, chip);
      }
      forall chip ensures chip in after.Keys <==> chip in next.Keys {
        assert SameEntry(after, next, chip);
      }
      assert after.Keys == next.Keys;
      forall chip | chip in after ensures after[chip] == next[chip] {
        assert SameEntry(after, next, chip);
      }
      assert after == next;
    }
  }

  ghost predicate Answers(out: map<ChipId, ChipVerification>, before: Cache, chips: seq<ChipId>, mode: Mode, f: Amd) {
    && out.Keys == Requested(chips)
    && forall chip :: chip in out ==>
         out[chip] == if mode.refresh || !Vouched(before, chip) then f(chip)
                      else ChipVerification(chip, true, false, before[chip].product, "")
  }

  class ChipState {
    var chips: Cache

    constructor (saved: Cache)
      ensures chips == saved
    {
      chips := saved;
    }

    /** asked is the calls made to AMD, in order. */
    method VerifyChips(requested: seq<ChipId>, f: Amd, mode: Mode)
      returns (out: map<ChipId, ChipVerification>, asked: seq<ChipId>)
      modifies this
      ensures Answers(out, old(chips), requested, mode, f)
      ensures Distinct(asked) && ToSet(asked) == Asks(old(chips), requested, mode)
      ensures Updated(old(chips), chips, ToSet(asked), mode, f)
    {
      hide Updated, Distinct, Requested, Asks;
      out, asked := map[], [];
      NothingAsked(chips, mode, f);
      assert requested[..0] == [];
      for i := 0 to |requested|
        invariant Answers(out, old(chips), requested[..i], mode, f)
        invariant Distinct(asked) && ToSet(asked) == Asks(old(chips), requested[..i], mode)
        invariant Updated(old(chips), chips, ToSet(asked), mode, f)
      {
        var chip := requested[i];
        OneMoreRequested(old(chips), requested, i, mode);
        if chip == "" || chip in out {
          continue;
        }
        assert chip !in ToSet(asked);
        NotAsked(old(chips), chips, ToSet(asked), mode, f, chip);
        if chip in chips && chips[chip].verified && !mode.refresh {
          out := out[chip := ChipVerification(chip, true, false, chips[chip].product, "")];
          continue;
        }
        var v := f(chip);
        out := out[chip := v];
        ghost var before, earlier := chips, asked;
        asked := asked + [chip];
        if v.verified {
          chips := chips[chip := ChipEntry(true, v.product, mode.clock(chip))];
        } else if mode.refresh && !v.inconclusive {
          chips := chips - {chip};
        }
        DistinctAppend(earlier, chip);
        assert ToSet(asked) == ToSet(earlier) + {chip};
        assert Recorded(old(chips), chips, chip, mode, f);
        OneMoreAsked(old(chips), before, chips, ToSet(earlier), chip, mode, f);
      }
      assert requested[..|requested|] == requested;
    }

    method VerifyChipsCached(requested: seq<ChipId>, f: Amd, clock: ChipId -> string)
      returns (out: map<ChipId, ChipVerification>, asked: seq<ChipId>)
      modifies this
      ensures Answers(out, old(chips), requested, Mode(false, clock), f)
      ensures Distinct(asked) && ToSet(asked) == set chip | chip in Requested(requested) && !Vouched(old(chips), chip)
      ensures Updated(old(chips), chips, ToSet(asked), Mode(false, clock), f)
    {
      out, asked := VerifyChips(requested, f, Mode(false, clock));
    }

    method RefreshChips(requested: seq<ChipId>, f: Amd, clock: ChipId -> string)
      returns (out: map<ChipId, ChipVerification>, asked: seq<ChipId>)
      modifies this
      ensures out == map chip | chip in Requested(requested) :: f(chip)
      ensures Distinct(asked) && ToSet(asked) == Requested(requested)
      ensures Updated(old(chips), chips, Requested(requested), Mode(true, clock), f)
    {
      out, asked := VerifyChips(requested, f, Mode(true, clock));
    }
  }

  /** Every verdict the cache would serve is the one AMD would give. */
  ghost predicate Agrees(cache: Cache, f: Amd) {
    forall chip :: Vouched(cache, chip) ==> f(chip).verified && f(chip).product == cache[chip].product
  }

  /** With an agreeing cache, the answers are AMD's, whichever chips were asked about. */
  lemma AnswersAreAmds(out: map<ChipId, ChipVerification>, before: Cache, requested: seq<ChipId>, mode: Mode, f: Amd)
    requires Agrees(before, f) && Answers(out, before, requested, mode, f)
    ensures forall chip :: chip in requested && chip != "" ==>
              chip in out && out[chip].verified == f(chip).verified && (f(chip).verified ==> out[chip].product == f(chip).product)
    ensures forall chip :: chip in requested && chip != "" ==>
              if chip in Asks(before, requested, mode) then out[chip] == f(chip)
              else out[chip].chipId == chip && out[chip].verified && !out[chip].inconclusive && out[chip].err == ""
  {
  }

  lemma AgreementKept(before: Cache, after: Cache, asked: set<ChipId>, mode: Mode, f: Amd)
    requires Agrees(before, f) && Updated(before, after, asked, mode, f)
    ensures Agrees(after, f)
  {
    forall chip | Vouched(after, chip) ensures f(chip).verified && f(chip).product == after[chip].product {
      if chip in asked && f(chip).verified {
        assert Recorded(before, after, chip, mode, f);
      } else {
        assert SameEntry(before, after, chip);
        assert Vouched(before, chip);
      }
    }
  }

  /** After a refresh: a requested chip is cached iff AMD vouches for it, or said nothing about a cached one. */
  lemma RefreshExact(before: Cache, after: Cache, requested: seq<ChipId>, clock: ChipId -> string, f: Amd)
    requires Updated(before, after, Requested(requested), Mode(true, clock), f)
    ensures forall chip :: chip in requested && chip != "" ==>
              (chip in after <==> f(chip).verified || (f(chip).inconclusive && chip in before))
    ensures forall chip :: chip !in requested || chip == "" ==> SameEntry(before, after, chip)
  {
    forall chip | chip in requested && chip != ""
      ensures chip in after <==> f(chip).verified || (f(chip).inconclusive && chip in before)
    {
      assert chip in Requested(requested);
      assert Recorded(before, after, chip, Mode(true, clock), f);
    }
  }

  /** A cache that went wrong is put right: after a refresh every chip AMD answered about agrees with AMD. */
  lemma RefreshRepairs(before: Cache, after: Cache, requested: seq<ChipId>, clock: ChipId -> string, f: Amd)
    requires Updated(before, after, Requested(requested), Mode(true, clock), f)
    requires forall chip :: Vouched(before, chip) ==> chip in Requested(requested) && !f(chip).inconclusive
    ensures Agrees(after, f)
  {
    forall chip | Vouched(after, chip) ensures f(chip).verified && f(chip).product == after[chip].product {
      assert chip in Requested(requested) || SameEntry(before, after, chip);
      assert chip in Requested(requested) || Vouched(before, chip);
      assert Recorded(before, after, chip, Mode(true, clock), f);
    }
  }

  // Histories of calls against one AMD.

  datatype Call = Call(requested: seq<ChipId>, mode: Mode)

  ghost predicate History(caches: seq<Cache>, calls: seq<Call>, f: Amd) {
    && |caches| == |calls| + 1
    && forall i :: 0 <= i < |calls| ==>
         Updated(caches[i], caches[i + 1], Asks(caches[i], calls[i].requested, calls[i].mode), calls[i].mode, f)
  }

  /** Agreement is kept by every run of cached lookups and refreshes. */
  lemma {:induction false} AgreementForever(caches: seq<Cache>, calls: seq<Call>, f: Amd, i: nat)
    requires History(caches, calls, f) && Agrees(caches[0], f) && i < |caches|
    ensures Agrees(caches[i], f)
  {
    hide Updated, Agrees;
    if i > 0 {
      AgreementForever(caches, calls, f, i - 1);
      var call := calls[i - 1];
      assert Updated(caches[i - 1], caches[i - 1 + 1], Asks(caches[i - 1], call.requested, call.mode), call.mode, f);
      AgreementKept(caches[i - 1], caches[i], Asks(caches[i - 1], call.requested, call.mode), call.mode, f);
    }
  }

  /** With an agreeing cache a vouched chip stays vouched, whatever is called. */
  lemma VouchedStays(before: Cache, after: Cache, asked: set<ChipId>, mode: Mode, f: Amd, chip: ChipId)
    requires Agrees(before, f) && Updated(before, after, asked, mode, f) && Vouched(before, chip)
    ensures Vouched(after, chip)
  {
    if chip in asked {
      assert Recorded(before, after, chip, mode, f);
    } else {
      assert SameEntry(before, after, chip);
    }
  }

  lemma {:induction false} VouchedForever(caches: seq<Cache>, calls: seq<Call>, f: Amd, chip: ChipId, i: nat, j: nat)
    requires History(caches, calls, f) && Agrees(caches[0], f) && i <= j < |caches|
    requires Vouched(caches[i], chip)
    ensures Vouched(caches[j], chip)
    decreases j
  {
    hide Updated, Agrees, Vouched;
    if i < j {
      VouchedForever(caches, calls, f, chip, i, j - 1);
      AgreementForever(caches, calls, f, j - 1);
      var call := calls[j - 1];
      assert Updated(caches[j - 1], caches[j - 1 + 1], Asks(caches[j - 1], call.requested, call.mode), call.mode, f);
      VouchedStays(caches[j - 1], caches[j], Asks(caches[j - 1], call.requested, call.mode), call.mode, f, chip);
    }
  }

  /** AMD is asked about a genuine chip once in any run of cached lookups: never again after the first time. */
  lemma AskedOnce(caches: seq<Cache>, calls: seq<Call>, f: Amd, chip: ChipId, i: nat, j: nat)
    requires History(caches, calls, f) && Agrees(caches[0], f) && i < j < |calls|
    requires f(chip).verified && chip in Asks(caches[i], calls[i].requested, calls[i].mode)
    requires !calls[j].mode.refresh
    ensures chip !in Asks(caches[j], calls[j].requested, calls[j].mode)
  {
    assert Recorded(caches[i], caches[i + 1], chip, calls[i].mode, f);
    VouchedForever(caches, calls, f, chip, i + 1, j);
  }
}
