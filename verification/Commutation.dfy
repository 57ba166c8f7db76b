/** Owner calls on different students may be reordered. */
module Commutation {
  import opened Types
  import opened PalletSpec
  import opened Registry

  predicate TouchesOwn(call: Call) {
    call.UpdateStudent? || call.DeleteStudent? || call.GraduateStudent?
  }

  /** On the registry, an owner call changes its own student only, and looks at nothing else. */
  lemma ApplyIsLocal(cfg: Config, send: SendOutcome, g: Registry, h: Registry, origin: Origin, call: Call)
    requires TouchesOwn(call)
    requires call.id in g.live <==> call.id in h.live
    requires call.id in g.live ==> g.live[call.id] == h.live[call.id]
    ensures var a, b := Apply(cfg, send, g, origin, call), Apply(cfg, send, h, origin, call);
            && a.result == b.result && a.sent == b.sent && a.registry.next == g.next
            && (call.id in a.registry.live <==> call.id in b.registry.live)
            && (call.id in a.registry.live ==> a.registry.live[call.id] == b.registry.live[call.id])
            && a.registry.live - {call.id} == g.live - {call.id}
  {
    var a := Apply(cfg, send, g, origin, call);
    assert a.registry.live - {call.id} == g.live - {call.id};
  }

  /** Two owner calls on different students give the same results and the same registry in either order. */
  lemma ApplyCommutes(
      cfg: Config, e1: SendOutcome, e2: SendOutcome, g: Registry, o1: Origin, o2: Origin, c1: Call, c2: Call)
    requires TouchesOwn(c1) && TouchesOwn(c2) && c1.id != c2.id
    ensures var a1, a2 := Apply(cfg, e1, g, o1, c1), Apply(cfg, e2, g, o2, c2);
            var a12, a21 := Apply(cfg, e2, a1.registry, o2, c2), Apply(cfg, e1, a2.registry, o1, c1);
            && a12.result == a2.result && a12.sent == a2.sent
            && a21.result == a1.result && a21.sent == a1.sent
            && a12.registry == a21.registry
  {
    var a1, a2 := Apply(cfg, e1, g, o1, c1), Apply(cfg, e2, g, o2, c2);
    var a12, a21 := Apply(cfg, e2, a1.registry, o2, c2), Apply(cfg, e1, a2.registry, o1, c1);
    ApplyIsLocal(cfg, e1, g, g, o1, c1);
    ApplyIsLocal(cfg, e2, g, g, o2, c2);
    OtherUntouched(a1.registry.live, g.live, c1.id, c2.id);
    OtherUntouched(a2.registry.live, g.live, c2.id, c1.id);
    ApplyIsLocal(cfg, e2, a1.registry, g, o2, c2);
    ApplyIsLocal(cfg, e1, a2.registry, g, o1, c1);
    Diamond(g.live, a1.registry.live, a2.registry.live, a12.registry.live, a21.registry.live, c1.id, c2.id);
  }

  lemma OtherUntouched<K, V>(m: map<K, V>, n: map<K, V>, k: K, other: K)
    requires m - {k} == n - {k} && k != other
    ensures (other in m <==> other in n) && (other in m ==> m[other] == n[other])
  {
    assert (other in m <==> other in m - {k}) && (other in n <==> other in n - {k});
    assert other in m ==> m[other] == (m - {k})[other] && n[other] == (n - {k})[other];
  }

  /** Two changes at different keys, made in either order, meet. */
  lemma Diamond<K, V>(m: map<K, V>, m1: map<K, V>, m2: map<K, V>, m12: map<K, V>, m21: map<K, V>, k1: K, k2: K)
    requires k1 != k2
    requires m1 - {k1} == m - {k1} && m2 - {k2} == m - {k2}
    requires m12 - {k2} == m1 - {k2} && m21 - {k1} == m2 - {k1}
    requires (k2 in m12 <==> k2 in m2) && (k2 in m12 ==> m12[k2] == m2[k2])
    requires (k1 in m21 <==> k1 in m1) && (k1 in m21 ==> m21[k1] == m1[k1])
    ensures m12 == m21
  {
    OtherUntouched(m12, m1, k2, k1);
    OtherUntouched(m21, m2, k1, k2);
    forall x ensures (x in m12 <==> x in m21) && (x in m12 ==> m12[x] == m21[x]) {
      if x != k1 && x != k2 {
        OtherUntouched(m12, m1, k2, x);
        OtherUntouched(m1, m, k1, x);
        OtherUntouched(m21, m2, k1, x);
        OtherUntouched(m2, m, k2, x);
      }
    }
    assert m12 == m21;
  }

  lemma TwoDispatchesRefine(cfg: Config, e1: Env, e2: Env, s: Storage, o1: Origin, o2: Origin, c1: Call, c2: Call)
    requires Agreement(s) && TouchesOwn(c1) && TouchesOwn(c2)
    requires Enumerates(e1.owners, s) && Enumerates(e2.owners, Dispatch(cfg, e1, s, o1, c1).storage)
    ensures var r1, a1 := Dispatch(cfg, e1, s, o1, c1), Apply(cfg, e1.send, Abs(s), o1, c1);
            var r2, a2 := Dispatch(cfg, e2, r1.storage, o2, c2), Apply(cfg, e2.send, a1.registry, o2, c2);
            && r1.result == a1.result && r1.sent == a1.sent && r2.result == a2.result && r2.sent == a2.sent
            && Agreement(r2.storage) && Abs(r2.storage) == a2.registry
  {
    PalletRefinesRegistry(cfg, e1, s, o1, c1);
    PalletRefinesRegistry(cfg, e2, Dispatch(cfg, e1, s, o1, c1).storage, o2, c2);
  }

  /**
   * Two owner calls on different students, by the same or different callers, give the same
   * results, messages and registry in either order; two graduations swap their messages.
   */
  lemma OwnerCallsCommute(
      cfg: Config, e1: Env, e2: Env, e1': Env, e2': Env, s: Storage, o1: Origin, o2: Origin, c1: Call, c2: Call)
    requires Agreement(s) && Enumerates(e1.owners, s) && Enumerates(e2.owners, s)
    requires e1'.send == e1.send && e2'.send == e2.send
    requires Enumerates(e2'.owners, Dispatch(cfg, e1, s, o1, c1).storage)
    requires Enumerates(e1'.owners, Dispatch(cfg, e2, s, o2, c2).storage)
    requires TouchesOwn(c1) && TouchesOwn(c2) && c1.id != c2.id
    ensures var r1, r2 := Dispatch(cfg, e1, s, o1, c1), Dispatch(cfg, e2, s, o2, c2);
            var r12, r21 := Dispatch(cfg, e2', r1.storage, o2, c2), Dispatch(cfg, e1', r2.storage, o1, c1);
            && r12.result == r2.result && r21.result == r1.result
            && r12.sent == r2.sent && r21.sent == r1.sent
            && Agreement(r12.storage) && Agreement(r21.storage) && Abs(r12.storage) == Abs(r21.storage)
  {
    TwoDispatchesRefine(cfg, e1, e2', s, o1, o2, c1, c2);
    TwoDispatchesRefine(cfg, e2, e1', s, o2, o1, c2, c1);
    ApplyCommutes(cfg, e1.send, e2.send, Abs(s), o1, o2, c1, c2);
  }

  /**
   * Unless both calls graduate, the channel also sees the same messages in the same order:
   * what one order of the two calls sends, one after the other, is what the other order sends.
   */
  lemma OneSenderKeepsOrder(
      cfg: Config, e1: Env, e2: Env, e1': Env, e2': Env, s: Storage, o1: Origin, o2: Origin, c1: Call, c2: Call)
    requires Agreement(s) && Enumerates(e1.owners, s) && Enumerates(e2.owners, s)
    requires e1'.send == e1.send && e2'.send == e2.send
    requires Enumerates(e2'.owners, Dispatch(cfg, e1, s, o1, c1).storage)
    requires Enumerates(e1'.owners, Dispatch(cfg, e2, s, o2, c2).storage)
    requires TouchesOwn(c1) && TouchesOwn(c2) && c1.id != c2.id
    requires !(c1.GraduateStudent? && c2.GraduateStudent?)
    ensures var r1, r2 := Dispatch(cfg, e1, s, o1, c1), Dispatch(cfg, e2, s, o2, c2);
            var r12, r21 := Dispatch(cfg, e2', r1.storage, o2, c2), Dispatch(cfg, e1', r2.storage, o1, c1);
            r1.sent + r12.sent == r2.sent + r21.sent
  {
    OwnerCallsCommute(cfg, e1, e2, e1', e2', s, o1, o2, c1, c2);
    AllOrNothing(cfg, e1, s, o1, c1);
    AllOrNothing(cfg, e2, s, o2, c2);
  }
}
