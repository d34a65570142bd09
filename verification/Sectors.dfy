/** Sectors as the image drivers store them: where they are, and how they are encrypted. */
module Sectors {
  import opened Division

  /** A sector's place in the file. */
  datatype Pos = Pos(cluster: nat, index: nat)

  /** Cluster size in sectors, the backing image, and sector encryption. */
  datatype Codec<!S(!new)> = Codec(cs: nat, blank: S, backing: nat -> S, crypt: bool, enc: (nat, S) -> S,
        dec: (nat, S) -> S)
  {
    ghost predicate Inverse(g: nat, s: S) {
      dec(g, enc(g, s)) == s
    }

    ghost predicate Lawful() {
      cs > 0 && forall g: nat, s: S :: Inverse(g, s)
    }

    function Seal(g: nat, s: S): S {
      if crypt then enc(g, s) else s
    }

    function Open(g: nat, s: S): S {
      if crypt then dec(g, s) else s
    }

    lemma OpenSeal(g: nat, s: S)
      requires Lawful()
      ensures Open(g, Seal(g, s)) == s
    {
      assert Inverse(g, s);
    }

    function Get(data: map<Pos, S>, p: Pos): S {
      if p in data then data[p] else blank
    }

    /** Where guest sector g lies when guest cluster gc is at h and the run is contiguous. */
    function Place(h: nat, gc: nat, g: nat): Pos
      requires cs > 0
    {
      Pos(if gc <= Div(g, cs) then h + (Div(g, cs) - gc) else 0, Mod(g, cs))
    }

    lemma PlaceInjective(h: nat, gc: nat, g: nat, f: nat)
      requires cs > 0 && gc <= Div(g, cs) && gc <= Div(f, cs) && g != f
      ensures Place(h, gc, g) != Place(h, gc, f)
    {
      DivModDiffer(g, f, cs);
    }
  }
}
