/** The device seen through the Modbus client: four address spaces, and requests that either fail or
    are carried out exactly. The client library itself is not part of this model. */
module Devices {
  import opened Words

  // MODBUS Application Protocol Specification V1.1b3, section 4.4: 65536 addresses per table.
  const ADDRESSES := 0x1_0000

  datatype Bank = Coils | DiscreteInputs | InputRegisters | HoldingRegisters

  type WordBank = ws: seq<uint16> | |ws| == 0x1_0000 ghost witness seq(0x1_0000, _ => 0)

  type BitBank = bs: seq<bool> | |bs| == 0x1_0000 ghost witness seq(0x1_0000, _ => false)

  datatype Image = Image(coils: BitBank, discreteInputs: BitBank, inputs: WordBank, holdings: WordBank)

  // The collector turns every bit it reads into a word, 1 or 0.
  function BitWord(b: bool): uint16 { if b then 1 else 0 }

  function AsWords(bits: seq<bool>): (ws: seq<uint16>)
    ensures |ws| == |bits|
    ensures forall i :: 0 <= i < |bits| ==> ws[i] == BitWord(bits[i])
  {
    seq(|bits|, i requires 0 <= i < |bits| => BitWord(bits[i]))
  }

  function Table(image: Image, bank: Bank): (ws: seq<uint16>)
    ensures |ws| == ADDRESSES
  {
    match bank
    case Coils => AsWords(image.coils)
    case DiscreteInputs => AsWords(image.discreteInputs)
    case InputRegisters => image.inputs
    case HoldingRegisters => image.holdings
  }

  function Slice(image: Image, bank: Bank, address: nat, count: nat): (ws: seq<uint16>)
    requires address + count <= ADDRESSES
    ensures |ws| == count
  {
    Table(image, bank)[address..address + count]
  }

  /** The words from an address on, in uint16 addresses: after the last one they continue at 0. */
  function WrappedSlice(image: Image, bank: Bank, address: uint16, count: nat): (ws: seq<uint16>)
    ensures |ws| == count
    ensures forall i :: 0 <= i < count ==> ws[i] == Table(image, bank)[Wrap16(address + i)]
  {
    seq(count, i requires 0 <= i < count => Table(image, bank)[Wrap16(address + i)])
  }

  lemma WrappedIsSlice(image: Image, bank: Bank, address: uint16, count: nat)
    requires address + count <= ADDRESSES
    ensures WrappedSlice(image, bank, address, count) == Slice(image, bank, address, count)
  {
    hide Table;
  }

  lemma WrappedJoin(image: Image, bank: Bank, address: uint16, m: nat, n: nat)
    ensures WrappedSlice(image, bank, address, m + n) ==
            WrappedSlice(image, bank, address, m) + WrappedSlice(image, bank, Wrap16(address + m), n)
  {
    hide Table, Wrap16;
    var whole, rest := WrappedSlice(image, bank, address, m + n), WrappedSlice(image, bank, Wrap16(address + m), n);
    forall i: nat | i < n ensures whole[m + i] == rest[i] {
      WrapAgain(address + m, i);
    }
  }

  datatype Request =
    | Read(bank: Bank, address: uint16, count: uint16)
    | WriteCoil(address: uint16, on: bool)
    | WriteRegisters(address: uint16, words: seq<uint16>)
    | Open
    | Close

  datatype Reply = Answer(words: seq<uint16>) | Failed

  datatype Exchange = Exchange(request: Request, reply: Reply)

  predicate IsWrite(request: Request) { request.WriteCoil? || request.WriteRegisters? }

  // A range that leaves the table is answered by exception 02, a quantity of zero by exception 03
  // (section 7; sections 6.1 to 6.4 and 6.12 for the quantities).
  predicate InTable(request: Request)
  {
    match request
    case Read(_, address, count) => 0 < count && address + count <= ADDRESSES
    case WriteRegisters(address, words) => words != [] && address + |words| <= ADDRESSES
    case _ => true
  }

  function Overwrite<T>(s: seq<T>, at: nat, ws: seq<T>): (r: seq<T>)
    requires at + |ws| <= |s|
    ensures |r| == |s|
  {
    s[..at] + ws + s[at + |ws|..]
  }

  function Apply(image: Image, request: Request): Image
  {
    match request
    case WriteCoil(address, on) => image.(coils := image.coils[address := on])
    case WriteRegisters(address, words) =>
      if InTable(request) then image.(holdings := Overwrite(image.holdings, address, words)) else image
    case _ => image
  }

  /** The answer, if there is one, is the slice that was asked for. */
  predicate Honest(image: Image, e: Exchange)
  {
    e.reply.Answer? ==>
      && InTable(e.request)
      && (e.request.Read? ==>
            e.reply.words == Slice(image, e.request.bank, e.request.address, e.request.count))
  }

  predicate AllHonest(image: Image, es: seq<Exchange>)
  {
    forall i :: 0 <= i < |es| ==> Honest(image, es[i])
  }

  /** One request and its effect; landed says whether the device carried a write out. A write that
      is acknowledged landed; one that failed may have landed all the same. */
  predicate DeviceStep(image: Image, e: Exchange, landed: bool, image': Image)
  {
    && Honest(image, e)
    && (landed ==> IsWrite(e.request) && InTable(e.request))
    && (e.reply.Answer? && IsWrite(e.request) ==> landed)
    && image' == if landed then Apply(image, e.request) else image
  }

  // ---- Transcripts -------------------------------------------------------------------------------

  /** How far a transcript of exchanges takes an operation: it waits for the answer to a request, or
      it has finished with a value and left the rest of the transcript untouched, or the transcript
      holds a request the operation would not have made. */
  datatype Progress<+T> = Asks(request: Request) | Returns(value: T, rest: seq<Exchange>) | Strays

  predicate AllAnswered(es: seq<Exchange>) { forall i :: 0 <= i < |es| ==> es[i].reply.Answer? }

  /** Makes the requests of a plan in turn and concatenates the answers; gives up on a failure. */
  function RunPlan(plan: seq<Request>, es: seq<Exchange>): (progress: Progress<Option<seq<uint16>>>)
    ensures progress.Returns? ==> |progress.rest| <= |es|
    decreases |plan|
  {
    if plan == [] then Returns(Some([]), es)
    else if es == [] then Asks(plan[0])
    else if es[0].request != plan[0] then Strays
    else match es[0].reply {
      case Failed => Returns(None, es[1..])
      case Answer(words) =>
        match RunPlan(plan[1..], es[1..]) {
          case Returns(Some(more), rest) => Returns(Some(words + more), rest)
          case other => other
        }
    }
  }

  /** What a returning plan consumed: the requests in order, and success exactly when all answered. */
  lemma {:induction false} PlanConsumes(plan: seq<Request>, es: seq<Exchange>) returns (k: nat)
    requires RunPlan(plan, es).Returns?
    ensures k <= |es| && k <= |plan| && RunPlan(plan, es).rest == es[k..]
    ensures forall i :: 0 <= i < k ==> es[i].request == plan[i]
    ensures RunPlan(plan, es).value.Some? <==> AllAnswered(es[..k])
    ensures RunPlan(plan, es).value.Some? ==> k == |plan|
    ensures RunPlan(plan, es).value.None? ==> k > 0 && es[k - 1].reply.Failed? && AllAnswered(es[..k - 1])
    decreases |plan|
  {
    if plan == [] {
      k := 0;
      assert es[0..] == es;
    } else if es[0].reply.Failed? {
      k := 1;
    } else {
      var k' := PlanConsumes(plan[1..], es[1..]);
      k := k' + 1;
      assert es[1..][k'..] == es[k..];
      assert es[..k] == [es[0]] + es[1..][..k'];
      if k' > 0 {
        assert es[..k - 1] == [es[0]] + es[1..][..k' - 1];
      }
      forall i | 0 <= i < k ensures es[i].request == plan[i] {
        if i > 0 {
          assert es[1..][i - 1] == es[i] && plan[1..][i - 1] == plan[i];
        }
      }
    }
  }

  /** What follows a finished plan does not change what the plan returned. */
  lemma {:induction false} PlanFrame(plan: seq<Request>, es: seq<Exchange>, more: seq<Exchange>)
    requires RunPlan(plan, es).Returns?
    ensures RunPlan(plan, es + more) == Returns(RunPlan(plan, es).value, RunPlan(plan, es).rest + more)
    decreases |plan|
  {
    if plan != [] {
      assert (es + more)[1..] == es[1..] + more;
      if es[0].reply.Answer? {
        PlanFrame(plan[1..], es[1..], more);
      }
    }
  }

  /** The exchanges that a finished plan consumed are a complete run of it. */
  lemma {:induction false} PlanPrefix(plan: seq<Request>, es: seq<Exchange>, k: nat)
    requires RunPlan(plan, es).Returns? && k <= |es| && RunPlan(plan, es).rest == es[k..]
    ensures RunPlan(plan, es[..k]) == Returns(RunPlan(plan, es).value, [])
    decreases |plan|
  {
    if plan == [] {
      assert k == 0 && es[..k] == [];
    } else {
      assert k > 0 && es[..k][0] == es[0] && es[..k][1..] == es[1..][..k - 1];
      if es[0].reply.Answer? {
        assert es[1..][k - 1..] == es[k..];
        PlanPrefix(plan[1..], es[1..], k - 1);
      } else {
        assert k == 1;
      }
    }
  }

  /** Plans in sequence. */
  lemma {:induction false} PlanConcat(p: seq<Request>, q: seq<Request>, es: seq<Exchange>)
    ensures RunPlan(p + q, es) ==
      match RunPlan(p, es) {
        case Returns(Some(ws), rest) =>
          (match RunPlan(q, rest)
           case Returns(Some(more), rest') => Returns(Some(ws + more), rest')
           case other => other)
        case other => other
      }
    decreases |p|
  {
    if p == [] {
      assert p + q == q;
      match RunPlan(q, es) {
        case Returns(Some(more), rest) => assert [] + more == more;
        case _ =>
      }
    } else {
      assert (p + q)[1..] == p[1..] + q;
      if es != [] && es[0].request == p[0] && es[0].reply.Answer? {
        PlanConcat(p[1..], q, es[1..]);
        match RunPlan(p[1..], es[1..]) {
          case Returns(Some(ws), rest) =>
            match RunPlan(q, rest) {
              case Returns(Some(more), rest') =>
                assert es[0].reply.words + (ws + more) == (es[0].reply.words + ws) + more;
              case _ =>
            }
          case _ =>
        }
      }
    }
  }

  /** A plan that waits asks for one of its requests and goes on from any reply to it. */
  lemma {:induction false} PlanGoesOn(plan: seq<Request>, es: seq<Exchange>, reply: Reply)
    requires RunPlan(plan, es).Asks?
    ensures var request := RunPlan(plan, es).request;
      && request in plan && |es| < |plan|
      && !RunPlan(plan, es + [Exchange(request, reply)]).Strays?
      && (RunPlan(plan, es + [Exchange(request, reply)]).Returns? ==>
            RunPlan(plan, es + [Exchange(request, reply)]).rest == [])
    decreases |plan|
  {
    if es != [] {
      PlanGoesOn(plan[1..], es[1..], reply);
      var request := RunPlan(plan, es).request;
      assert (es + [Exchange(request, reply)])[1..] == es[1..] + [Exchange(request, reply)];
    } else {
      assert ([] + [Exchange(plan[0], reply)])[1..] == [];
    }
  }

  /** The reads of a plan are consecutive, non-empty and cover exactly count words from address. */
  ghost predicate Tiles(plan: seq<Request>, bank: Bank, address: nat, count: nat)
    decreases |plan|
  {
    if plan == [] then count == 0
    else
      && plan[0].Read? && plan[0].bank == bank && plan[0].address == address
      && 0 < plan[0].count <= count
      && Tiles(plan[1..], bank, address + plan[0].count, count - plan[0].count)
  }

  lemma {:induction false} TilesConcat(p: seq<Request>, q: seq<Request>, bank: Bank, address: nat, m: nat, n: nat)
    requires Tiles(p, bank, address, m) && Tiles(q, bank, address + m, n)
    ensures Tiles(p + q, bank, address, m + n)
    decreases |p|
  {
    if p == [] {
      assert p + q == q;
    } else {
      TilesConcat(p[1..], q, bank, address + p[0].count, m - p[0].count, n);
      assert (p + q)[1..] == p[1..] + q;
    }
  }

  /** However a range is tiled, reading it gives the image's slice of the range. */
  lemma {:induction false} TiledPlanReadsSlice(plan: seq<Request>, es: seq<Exchange>, image: Image, bank: Bank,
                                               address: nat, count: nat)
    requires Tiles(plan, bank, address, count) && address + count <= ADDRESSES
    requires RunPlan(plan, es).Returns? && RunPlan(plan, es).value.Some?
    requires AllHonest(image, es)
    ensures RunPlan(plan, es).value.value == Slice(image, bank, address, count)
    decreases |plan|
  {
    if plan != [] {
      assert Honest(image, es[0]);
      assert AllHonest(image, es[1..]);
      TiledPlanReadsSlice(plan[1..], es[1..], image, bank, address + plan[0].count, count - plan[0].count);
    }
  }

  // ---- A plan under way --------------------------------------------------------------------------

  function Answers(es: seq<Exchange>): seq<uint16>
    requires AllAnswered(es)
  {
    if es == [] then [] else es[0].reply.words + Answers(es[1..])
  }

  /** The first requests of the plan were made and answered. */
  predicate Underway(plan: seq<Request>, es: seq<Exchange>): (under: bool)
    ensures under ==> |es| <= |plan| && AllAnswered(es)
  {
    && |es| <= |plan|
    && AllAnswered(es)
    && forall i :: 0 <= i < |es| ==> es[i].request == plan[i]
  }

  lemma {:induction false} AnsweredRun(plan: seq<Request>, es: seq<Exchange>, more: seq<Exchange>)
    requires Underway(plan, es) && |es| == |plan|
    ensures RunPlan(plan, es + more) == Returns(Some(Answers(es)), more)
    decreases |es|
  {
    if es == [] {
      assert es + more == more;
    } else {
      assert (es + more)[1..] == es[1..] + more && (es + more)[0] == es[0];
      AnsweredRun(plan[1..], es[1..], more);
    }
  }

  lemma UnderwayRuns(plan: seq<Request>, es: seq<Exchange>, more: seq<Exchange>)
    requires Underway(plan, es)
    ensures RunPlan(plan, es + more) ==
      match RunPlan(plan[|es|..], more) {
        case Returns(Some(ws), rest) => Returns(Some(Answers(es) + ws), rest)
        case other => other
      }
  {
    hide RunPlan, Answers;
    AnsweredRun(plan[..|es|], es, more);
    PlanConcat(plan[..|es|], plan[|es|..], es + more);
    assert plan[..|es|] + plan[|es|..] == plan;
  }

  /** One more request of the plan. */
  lemma UnderwayStep(plan: seq<Request>, es: seq<Exchange>, e: Exchange)
    requires Underway(plan, es) && |es| < |plan| && e.request == plan[|es|]
    ensures e.reply.Answer? ==> Underway(plan, es + [e]) && Answers(es + [e]) == Answers(es) + e.reply.words
    ensures e.reply.Failed? ==> RunPlan(plan, es + [e]) == Returns(None, [])
  {
    if e.reply.Answer? {
      AnswersAppend(es, e);
    } else {
      UnderwayRuns(plan, es, [e]);
      assert plan[|es|..][0] == e.request && [e][1..] == [];
    }
  }

  lemma {:induction false} AnswersAppend(es: seq<Exchange>, e: Exchange)
    requires AllAnswered(es) && e.reply.Answer?
    ensures AllAnswered(es + [e]) && Answers(es + [e]) == Answers(es) + e.reply.words
  {
    if es == [] {
      assert es + [e] == [e] && [e][1..] == [];
      assert Answers([e]) == e.reply.words + Answers([e][1..]);
    } else {
      assert (es + [e])[1..] == es[1..] + [e];
      AnswersAppend(es[1..], e);
    }
  }

  lemma UnderwayDone(plan: seq<Request>, es: seq<Exchange>)
    requires Underway(plan, es) && |es| == |plan|
    ensures RunPlan(plan, es) == Returns(Some(Answers(es)), [])
  {
    UnderwayRuns(plan, es, []);
    assert es + [] == es && plan[|es|..] == [] && Answers(es) + [] == Answers(es);
  }
}
