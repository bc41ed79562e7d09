/** Runs of syntax elements: fixed-length fields and Exp-Golomb codes, printed and read back. */
module HevcElements {
  import opened Bitstring
  import opened ExpGolomb
  import opened Limits
  import opened SyntaxElements
  import opened Wrappers

  /** u(n), ue(v) or se(v), with its value. */
  datatype Element = U(value: nat, width: nat) | Ue(code: nat) | Se(signed: int)
  {
    function Number(): int {
      match this
      case U(v, _) => v
      case Ue(v) => v
      case Se(v) => v
    }

    predicate Fits() {
      match this
      case U(v, n) => n <= 32 && v < Pow2(n) && v < 0x1_0000_0000
      case Ue(v) => v < UINT32_MAX
      case Se(v) => -0x8000_0000 < v < 0x8000_0000
    }

    function Code(): BitString {
      match this
      case U(v, n) => FixedBits(v, n)
      case Ue(v) => UeCode(v)
      case Se(v) => SeCode(v)
    }

    function Shape(): Kind {
      match this
      case U(_, n) => UKind(n)
      case Ue(_) => UeKind
      case Se(_) => SeKind
    }
  }

  datatype Kind = UKind(width: nat) | UeKind | SeKind

  function Flag(b: bool): Element {
    U(BitValue(b), 1)
  }

  function Codes(es: seq<Element>): BitString {
    if es == [] then [] else Codes(es[..|es| - 1]) + es[|es| - 1].Code()
  }

  predicate AllFit(es: seq<Element>) {
    forall i :: 0 <= i < |es| ==> es[i].Fits()
  }

  predicate Shaped(es: seq<Element>, kinds: seq<Kind>) {
    |es| == |kinds| && forall i :: 0 <= i < |es| ==> es[i].Shape() == kinds[i]
  }

  // ---------- Reading ----------

  function ReadElement(s: BitString, pos: nat, kind: Kind): Result<(Element, nat)> {
    match kind
    case UKind(n) =>
      var (v, q) :- DecodeFixed(s, pos, n);
      Success((U(v, n), q))
    case UeKind =>
      var (v, q) :- DecodeUe(s, pos, 31);
      Success((Ue(v), q))
    case SeKind =>
      var (v, q) :- DecodeUe(s, pos, 31);
      Success((Se(SeValue(v)), q))
  }

  function ReadElements(s: BitString, pos: nat, kinds: seq<Kind>): (r: Result<(seq<Element>, nat)>)
    ensures r.Success? ==> |r.value.0| == |kinds|
    decreases |kinds|
  {
    if kinds == [] then Success(([], pos))
    else
      var n := |kinds| - 1;
      var (before, p) :- ReadElements(s, pos, kinds[..n]);
      var (e, q) :- ReadElement(s, p, kinds[n]);
      Success((before + [e], q))
  }

  function ReadIf(present: bool, s: BitString, pos: nat, kinds: seq<Kind>): (r: Result<(seq<Element>, nat)>)
    ensures r.Success? && present ==> |r.value.0| == |kinds|
  {
    if present then ReadElements(s, pos, kinds) else Success(([], pos))
  }

  lemma ReadOne(s: BitString, pos: nat, e: Element, q: nat)
    requires e.Fits() && Reads(s, pos, e.Code(), q)
    ensures ReadElement(s, pos, e.Shape()) == Success((e, q))
  {
    hide UeCode, FixedBits, DecodeUe, DecodeFixed, Pow2, Log2;
    match e
    case U(v, n) => FixedExact(s, pos, n, v, q);
    case Ue(v) =>
      Log2Limit(v + 1);
      DecodeUeExact(s, pos, 31, v, q);
    case Se(v) =>
      SignedMappingInverts(v, 0);
      Log2Limit(SeCodeNum(v) + 1);
      DecodeUeExact(s, pos, 31, SeCodeNum(v), q);
  }

  // What was printed is read back.
  lemma {:induction false} ReadBack(s: BitString, pos: nat, es: seq<Element>, kinds: seq<Kind>, q: nat)
    requires AllFit(es) && Shaped(es, kinds) && Reads(s, pos, Codes(es), q)
    ensures ReadElements(s, pos, kinds) == Success((es, q))
    decreases |es|
  {
    hide At, Element.Code, ReadElement, Element.Fits, Element.Shape;
    if es != [] {
      var n := |es| - 1;
      var mid := pos + |Codes(es[..n])|;
      ReadsConcat(s, pos, Codes(es[..n]), es[n].Code(), q);
      ReadBack(s, pos, es[..n], kinds[..n], mid);
      ReadOne(s, mid, es[n], q);
      assert es[..n] + [es[n]] == es;
    }
  }

  // The next run of elements, and what stands behind it.
  lemma ReadNext(s: BitString, pos: nat, es: seq<Element>, kinds: seq<Kind>, rest: BitString, q: nat)
    requires AllFit(es) && Shaped(es, kinds) && Reads(s, pos, Codes(es) + rest, q)
    ensures ReadElements(s, pos, kinds) == Success((es, pos + |Codes(es)|))
    ensures Reads(s, pos + |Codes(es)|, rest, q)
  {
    hide Codes, AllFit, Shaped, ReadElements, At;
    ReadsConcat(s, pos, Codes(es), rest, q);
    ReadBack(s, pos, es, kinds, pos + |Codes(es)|);
  }

  lemma ReadNextIf(s: BitString, pos: nat, present: bool, es: seq<Element>, kinds: seq<Kind>, rest: BitString, q: nat)
    requires AllFit(es) && Reads(s, pos, Codes(es) + rest, q)
    requires if present then Shaped(es, kinds) else es == []
    ensures ReadIf(present, s, pos, kinds) == Success((es, pos + |Codes(es)|))
    ensures Reads(s, pos + |Codes(es)|, rest, q)
  {
    hide Codes, AllFit, Shaped, ReadElements, At;
    if present {
      ReadNext(s, pos, es, kinds, rest, q);
    } else {
      NoCodes(rest);
    }
  }

  lemma NoCodes(rest: BitString)
    ensures Codes([]) == [] && Codes([]) + rest == rest
  {
  }

  lemma OneMoreCode(es: seq<Element>, e: Element)
    ensures Codes(es + [e]) == Codes(es) + e.Code()
  {
    assert (es + [e])[..|es|] == es;
  }
}
