/**
 The wire form of a stats dict: non-finite scalars become null plus a token, a histogram over a
 non-finite range is omitted, and the finite block is treated likewise.
 */
module StatsWire {
  import opened Common
  import opened JsonSafe
  import opened StatsKernel

  /** The token a scalar is replaced with, if it is. */
  function TokenAt(s: Stats, key: string): Option<string> {
    if key in s.scalars && s.scalars[key].Float? then NonfiniteToken(s.scalars[key].f) else None
  }

  function Tokens(s: Stats): map<string, string> {
    map key | key in SCALARS && TokenAt(s, key).Some? :: TokenAt(s, key).value
  }

  function FirstToken(bins: seq<Flt>): Option<string> {
    if bins == [] then None
    else if NonfiniteToken(bins[0]).Some? then NonfiniteToken(bins[0])
    else FirstToken(bins[1..])
  }

  function EdgeToken(h: Option<Histogram>): Option<string> {
    if h.None? then None else FirstToken(h.value.bins)
  }

  /** Edge `i` has this token, and none before it has one. */
  ghost predicate FirstAt(bins: seq<Flt>, i: int, token: Option<string>) {
    0 <= i < |bins| && NonfiniteToken(bins[i]) == token && forall j | 0 <= j < i :: NonfiniteToken(bins[j]).None?
  }

  /** The loop over the bin edges. */
  method HistogramToken(h: Option<Histogram>) returns (token: Option<string>)
    ensures token == EdgeToken(h)
    ensures token.Some? <==> h.Some? && exists e | e in h.value.bins :: NonfiniteToken(e).Some?
    ensures token.Some? ==> exists i :: FirstAt(h.value.bins, i, token)
  {
    if h.None? { return None; }
    var bins := h.value.bins;
    for i := 0 to |bins|
      invariant FirstToken(bins) == FirstToken(bins[i..])
      invariant forall e | e in bins[..i] :: NonfiniteToken(e).None?
    {
      assert bins[i] == bins[i..][0] && bins[i..][1..] == bins[i + 1..];
      token := NonfiniteToken(bins[i]);
      if token.Some? {
        assert forall j | 0 <= j < i :: bins[j] in bins[..i];
        assert FirstAt(bins, i, token);
        return;
      }
      assert bins[..i + 1] == bins[..i] + [bins[i]];
    }
    assert bins[..|bins|] == bins;
    return None;
  }

  predicate Dirty(s: Stats) { Tokens(s) != map[] || EdgeToken(s.histogram).Some? }

  function Substituted(scalars: map<string, Field>, tokens: map<string, string>): map<string, Field> {
    map key | key in scalars :: if key in tokens then Null else scalars[key]
  }

  function Wire(s: Stats): Stats
    decreases s
  {
    if !Dirty(s) then s
    else
      var edge := EdgeToken(s.histogram);
      Stats(Substituted(s.scalars, Tokens(s)),
            if edge.Some? then None else s.histogram,
            Some(if edge.Some? then Tokens(s)["histogram" := edge.value] else Tokens(s)),
            s.nonfiniteCount, s.count,
            match s.finite case Some(f) => Some(Wire(f)) case None => None)
  }

  /** Whether the caller gets back its own dict or a substituted copy. */
  datatype Outcome = Same | Copied(s: Stats)

  function Read(o: Outcome, s: Stats): Stats { if o.Same? then s else o.s }

  /** The tokens of the first `n` scalar keys. */
  function TokensTo(s: Stats, n: nat): map<string, string>
    requires n <= |SCALARS|
  {
    map key | key in SCALARS[..n] && TokenAt(s, key).Some? :: TokenAt(s, key).value
  }

  lemma TokensToStep(s: Stats, n: nat)
    requires n < |SCALARS|
    ensures TokensTo(s, n + 1) ==
      if TokenAt(s, SCALARS[n]).Some? then TokensTo(s, n)[SCALARS[n] := TokenAt(s, SCALARS[n]).value]
      else TokensTo(s, n)
  {
    assert SCALARS[..n + 1] == SCALARS[..n] + [SCALARS[n]];
  }

  /** `stats_to_wire`: copies only when something needs substitution, edits the copy in place. */
  method StatsToWire(s: Stats) returns (result: Outcome)
    ensures result.Same? <==> !Dirty(s)
    ensures Read(result, s) == Wire(s)
    decreases s
  {
    var nonfinite: map<string, string> := map[];
    for i := 0 to |SCALARS|
      invariant nonfinite == TokensTo(s, i)
    {
      var token := TokenAt(s, SCALARS[i]);
      if token.Some? { nonfinite := nonfinite[SCALARS[i] := token.value]; }
      TokensToStep(s, i);
    }
    assert SCALARS[..|SCALARS|] == SCALARS;
    assert nonfinite == Tokens(s);
    var edge := HistogramToken(s.histogram);
    if nonfinite == map[] && edge.None? { return Same; }
    var out := s.(scalars := Substituted(s.scalars, nonfinite));
    if edge.Some? {
      out := out.(histogram := None);
      nonfinite := nonfinite["histogram" := edge.value];
    }
    out := out.(nonfinite := Some(nonfinite));
    if s.finite.Some? {
      var inner := StatsToWire(s.finite.value);
      out := out.(finite := Some(Read(inner, s.finite.value)));
    }
    return Copied(out);
  }

  // ---------------------------------------------------------------------------------------------
  // What is on the wire
  // ---------------------------------------------------------------------------------------------

  ghost predicate FiniteScalars(s: Stats) {
    forall key | key in s.scalars :: s.scalars[key].Float? ==> s.scalars[key].f.Finite?
  }

  ghost predicate FiniteEdges(s: Stats) {
    s.histogram.Some? ==> forall e | e in s.histogram.value.bins :: e.Finite?
  }

  ghost predicate FiniteThroughout(s: Stats)
    decreases s
  {
    FiniteScalars(s) && FiniteEdges(s) && match s.finite case Some(f) => FiniteThroughout(f) case None => true
  }

  /** The schema: only the five scalar keys, none unclassifiable. */
  ghost predicate Schema(s: Stats)
    decreases s
  {
    && (forall key | key in s.scalars :: key in SCALARS && (s.scalars[key].Float? ==> !s.scalars[key].f.Hostile?))
    && (s.histogram.Some? ==> forall e | e in s.histogram.value.bins :: !e.Hostile?)
    && s.nonfinite.None?
    && match s.finite case Some(f) => Schema(f) case None => true
  }

  /** Substitution reaches a dirty block only through dirty records. */
  ghost predicate Reached(s: Stats)
    decreases s
  {
    match s.finite
    case Some(f) => if Dirty(s) then Reached(f) else FiniteThroughout(f)
    case None => true
  }

  /** What a token says. */
  ghost predicate Names(token: string, f: Flt) {
    (token == "nan" && f == NaN) || (token == "inf" && f == PosInf) || (token == "-inf" && f == NegInf)
  }

  /** A scalar with a value no strict JSON number has. */
  ghost predicate NonfiniteAt(s: Stats, key: string) {
    key in {"mean", "std", "min", "max", "norm"} && key in s.scalars && s.scalars[key].Float?
    && s.scalars[key].f in {NaN, PosInf, NegInf}
  }

  /** The companion map has exactly the substituted scalars and, when the histogram was dropped, its entry. */
  lemma WireNames(s: Stats)
    requires Dirty(s)
    ensures var w := Wire(s);
      && w.nonfinite.Some?
      && (forall key: string | key != "histogram" :: key in w.nonfinite.value <==> NonfiniteAt(s, key))
      && (forall key | NonfiniteAt(s, key) ::
            key in w.nonfinite.value && w.scalars[key] == Null && Names(w.nonfinite.value[key], s.scalars[key].f))
      && ("histogram" in w.nonfinite.value <==>
            s.histogram.Some? && exists e | e in s.histogram.value.bins :: e in {NaN, PosInf, NegInf})
      && (w.histogram == if "histogram" in w.nonfinite.value then None else s.histogram)
      && (forall key | key in s.scalars && !NonfiniteAt(s, key) :: w.scalars[key] == s.scalars[key])
  {
    if s.histogram.Some? { FirstTokenSeesAll(s.histogram.value.bins); }
    TokensAre(s);
    hide Tokens, FirstToken, NonfiniteAt;
  }

  lemma TokensAre(s: Stats)
    ensures forall key: string :: key in Tokens(s) <==> NonfiniteAt(s, key)
    ensures forall key | key in Tokens(s) :: Names(Tokens(s)[key], s.scalars[key].f)
    ensures "histogram" !in Tokens(s)
  {
    assert SCALARS[0] == "mean" && SCALARS[1] == "std" && SCALARS[2] == "min";
    assert SCALARS[3] == "max" && SCALARS[4] == "norm";
  }

  lemma {:induction false} FirstTokenSeesAll(bins: seq<Flt>)
    ensures FirstToken(bins).None? <==> forall e | e in bins :: NonfiniteToken(e).None?
  {
    if bins != [] { FirstTokenSeesAll(bins[1..]); }
  }

  lemma CleanIsFinite(s: Stats)
    requires Schema(s)
    ensures !Dirty(s) <==> FiniteScalars(s) && FiniteEdges(s)
  {
    if s.histogram.Some? { FirstTokenSeesAll(s.histogram.value.bins); }
    if !Dirty(s) {
      forall key | key in s.scalars && s.scalars[key].Float? ensures s.scalars[key].f.Finite? {
        assert key !in Tokens(s);
      }
    }
    if FiniteScalars(s) { assert Tokens(s) == map[]; }
  }

  lemma WiredScalars(s: Stats)
    requires Schema(s) && Dirty(s)
    ensures FiniteScalars(Wire(s)) && FiniteEdges(Wire(s))
  {
    if s.histogram.Some? { FirstTokenSeesAll(s.histogram.value.bins); }
    var out := Wire(s).scalars;
    forall key | key in out && out[key].Float? ensures out[key].f.Finite? {
      assert key in SCALARS && key !in Tokens(s);
    }
  }

  /** Every float on the wire is finite exactly when no dirty block hides below a clean record. */
  lemma {:induction false} WireIsFiniteExactlyWhen(s: Stats)
    requires Schema(s)
    ensures FiniteThroughout(Wire(s)) <==> Reached(s)
    decreases s
  {
    CleanIsFinite(s);
    if Dirty(s) {
      WiredScalars(s);
      if s.finite.Some? { WireIsFiniteExactlyWhen(s.finite.value); }
    }
  }

  /** Substituting twice is substituting once. */
  lemma WireOnce(s: Stats)
    ensures Wire(Wire(s)) == Wire(s)
  {
    if Dirty(s) {
      var w := Wire(s);
      assert Tokens(w) == map[] by {
        forall key | key in SCALARS ensures TokenAt(w, key).None?
        { assert key in Tokens(s) <==> TokenAt(s, key).Some?; }
      }
    }
  }

  // ---------------------------------------------------------------------------------------------
  // Reading it back
  // ---------------------------------------------------------------------------------------------

  function Untoken(token: string): Flt {
    if token == "nan" then NaN else if token == "inf" then PosInf else NegInf
  }

  function Restored(scalars: map<string, Field>, tokens: map<string, string>): map<string, Field> {
    map key | key in scalars :: if key in tokens then Float(Untoken(tokens[key])) else scalars[key]
  }

  /** The consumer: a null listed in the companion map had the value its token names. */
  function Restore(w: Stats): Stats
    decreases w
  {
    match w.nonfinite
    case None => w
    case Some(tokens) =>
      Stats(Restored(w.scalars, tokens), w.histogram, None, w.nonfiniteCount, w.count,
            match w.finite case Some(f) => Some(Restore(f)) case None => None)
  }

  /** The record less the histograms that cannot be represented. */
  function WithoutBadHistograms(s: Stats): Stats
    decreases s
  {
    if !Dirty(s) then s
    else s.(histogram := if EdgeToken(s.histogram).Some? then None else s.histogram,
            finite := match s.finite case Some(f) => Some(WithoutBadHistograms(f)) case None => None)
  }

  lemma ScalarsRestored(s: Stats)
    requires Schema(s) && Dirty(s)
    ensures Restored(Wire(s).scalars, Wire(s).nonfinite.value) == s.scalars
  {
    var w := Wire(s);
    forall key | key in s.scalars
      ensures key in w.nonfinite.value <==> key in Tokens(s)
      ensures key in Tokens(s) ==> s.scalars[key] == Float(Untoken(w.nonfinite.value[key]))
    {
      assert key in SCALARS && key != "histogram";
    }
  }

  /** Nothing else is lost: every scalar, outer and in the finite block, can be read back. */
  lemma {:induction false} WireRoundTrip(s: Stats)
    requires Schema(s)
    ensures Restore(Wire(s)) == WithoutBadHistograms(s)
    decreases s
  {
    if Dirty(s) {
      ScalarsRestored(s);
      if s.finite.Some? { WireRoundTrip(s.finite.value); }
    }
  }

  // ---------------------------------------------------------------------------------------------
  // Kernel records
  // ---------------------------------------------------------------------------------------------

  lemma KernelSchemaFinite(xs: seq<Num>, lib: seq<Num> -> Reductions)
    requires AllFinite(xs)
    ensures Schema(Kernel(xs, lib))
  {
    KernelOfFinite(xs, lib);
  }

  lemma KernelSchema(xs: seq<Num>, lib: seq<Num> -> Reductions)
    ensures Schema(Kernel(xs, lib))
  {
    if xs != [] {
      ExtremesTell(xs);
      FiniteOfKeeps(xs);
      KernelSchemaFinite(FiniteOf(xs), lib);
      if AllFinite(xs) { KernelSchemaFinite(xs, lib); }
    }
  }

  lemma KernelReached(xs: seq<Num>, lib: seq<Num> -> Reductions)
    ensures Reached(Kernel(xs, lib)) && (!AllFinite(xs) ==> Dirty(Kernel(xs, lib)))
  {
    RerunsAtMostOnce(xs, lib);
    var s := Kernel(xs, lib);
    if s.finite.Some? {
      ExtremesTell(xs);
      assert !s.scalars["min"].f.Finite? || !s.scalars["max"].f.Finite?;
      assert TokenAt(s, "min").Some? || TokenAt(s, "max").Some?;
      assert SCALARS[2] == "min" && SCALARS[3] == "max";
      assert "min" in Tokens(s) || "max" in Tokens(s);
    }
  }

  /** Any tensor's record reaches the wire with finite floats only, and its scalars can be read back. */
  lemma KernelRecordOnTheWire(xs: seq<Num>, lib: seq<Num> -> Reductions)
    ensures FiniteThroughout(Wire(Kernel(xs, lib)))
    ensures Restore(Wire(Kernel(xs, lib))) == WithoutBadHistograms(Kernel(xs, lib))
    ensures !AllFinite(xs) ==> Dirty(Kernel(xs, lib))
  {
    KernelSchema(xs, lib);
    KernelReached(xs, lib);
    WireIsFiniteExactlyWhen(Kernel(xs, lib));
    WireRoundTrip(Kernel(xs, lib));
  }

  /** A clean record passes by reference even if its finite block is not clean. */
  lemma CleanOuterHidesDirtyBlock(s: Stats, inner: Stats)
    requires !Dirty(s) && s.finite == Some(inner) && Schema(inner) && Dirty(inner)
    ensures Wire(s) == s && !FiniteThroughout(Wire(s))
  {
    CleanIsFinite(inner);
  }
}
