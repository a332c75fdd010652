/**
 What the convolution means for its input, said without padding: which input element a tile entry
 holds, the form that scatters every input element to the outputs it reaches, and the response to a
 single element.
 */
module ConvolutionLaws {
  import opened Sums
  import opened TileOps
  import opened Convolution

  /** A tile entry holds the input element at the decoded indices exactly where the guard holds, and zero elsewhere. */
  lemma StoredValue(s: Shape, t: Tensors, m: nat, k: nat)
    requires s.outH * s.outW > 0 && s.kW * s.inC > 0
    ensures s.inC > 0
    ensures InBound(s, m, k) ==>
              Unfolded(s, t, m, k) == t.data(m / (s.outH * s.outW), AccessH(s, m, k), AccessW(s, m, k), k % s.inC)
    ensures !InBound(s, m, k) ==> Unfolded(s, t, m, k) == 0.0
  {
    NonZero(s.kW, s.inC);
    hide AccessH, AccessW, InputH, InputW;
  }

  /** The input size is the one that gives the output size, with nothing left over. */
  lemma OutputSize(s: Shape)
    requires s.stride > 0 && s.outH > 0 && s.outW > 0
    ensures InputH(s) + 2 * s.pad - (s.kH - 1) * s.dilation - 1 == (s.outH - 1) * s.stride
    ensures InputW(s) + 2 * s.pad - (s.kW - 1) * s.dilation - 1 == (s.outW - 1) * s.stride
    ensures (InputH(s) + 2 * s.pad - (s.kH - 1) * s.dilation - 1) / s.stride + 1 == s.outH
    ensures (InputW(s) + 2 * s.pad - (s.kW - 1) * s.dilation - 1) / s.stride + 1 == s.outW
  {
    Divides((s.outH - 1) * s.stride, s.stride, s.outH - 1, 0);
    Divides((s.outW - 1) * s.stride, s.stride, s.outW - 1, 0);
  }

  /** Kernel row or column k takes output row or column i to input row or column y. */
  predicate Hits(s: Shape, i: nat, k: nat, y: nat) {
    i * s.stride + k * s.dilation == y + s.pad
  }

  /** What output (h, w, f) takes from input element (y, x, c): the kernel over the taps that hit it. */
  function Response(s: Shape, t: Tensors, h: nat, w: nat, f: nat, y: nat, x: nat, c: nat): real {
    Sum2(s.kH, s.kW, (kh: nat, kw: nat) => if Hits(s, h, kh, y) && Hits(s, w, kw, x) then t.kernel(kh, kw, c, f) else 0.0)
  }

  function Rows(s: Shape): nat {
    if InputH(s) < 0 then 0 else InputH(s)
  }

  function Columns(s: Shape): nat {
    if InputW(s) < 0 then 0 else InputW(s)
  }

  /** Every input element times the response to it. */
  function Scattered(s: Shape, t: Tensors, n: nat, h: nat, w: nat, f: nat): real {
    Sum(s.inC, (c: nat) =>
      Sum2(Rows(s), Columns(s), (y: nat, x: nat) => t.data(n, y, x, c) * Response(s, t, h, w, f, y, x, c)))
  }

  /** The part of a tap that falls on input element (y, x). */
  function Part(s: Shape, t: Tensors, n: nat, h: nat, w: nat, f: nat, c: nat, kh: nat, kw: nat, y: nat, x: nat): real {
    if Hits(s, h, kh, y) && Hits(s, w, kw, x) then t.data(n, y, x, c) * t.kernel(kh, kw, c, f) else 0.0
  }

  /** A tap falls on one input element, or on the padding. */
  lemma TapIsParts(s: Shape, t: Tensors, n: nat, h: nat, w: nat, f: nat, c: nat, kh: nat, kw: nat)
    ensures Tap(s, t, n, h, w, f, kh, kw, c)
         == Sum2(Rows(s), Columns(s), (y: nat, x: nat) => Part(s, t, n, h, w, f, c, kh, kw, y, x))
  {
    hide InputH, InputW, Sum2;
    var y := h * s.stride + kh * s.dilation - s.pad;
    var x := w * s.stride + kw * s.dilation - s.pad;
    var g := (i: nat, j: nat) => Part(s, t, n, h, w, f, c, kh, kw, i, j);
    if 0 <= y < Rows(s) && 0 <= x < Columns(s) {
      Sum2Single(Rows(s), Columns(s), y, x, g);
    } else {
      Sum2Zero(Rows(s), Columns(s), g);
    }
  }

  /** Gathering taps and scattering elements give the same output. */
  lemma ScatterIsDirect(s: Shape, t: Tensors, n: nat, h: nat, w: nat, f: nat)
    ensures Direct(s, t, n, h, w, f) == Scattered(s, t, n, h, w, f)
  {
    hide Sum, Sum2, Tap, Part, Rows, Columns, Response;
    var taps := (kh: nat, kw: nat, c: nat) => Tap(s, t, n, h, w, f, kh, kw, c);
    var whole := (kh: nat, kw: nat) => Sum(s.inC, (c: nat) => taps(kh, kw, c));
    DirectIsTaps(s, t, n, h, w, f, taps);
    Sum21Swap(s.kH, s.kW, s.inC, taps);
    var channels := (c: nat) => Sum2(s.kH, s.kW, (kh: nat, kw: nat) => taps(kh, kw, c));
    var scattered := (c: nat) =>
      Sum2(Rows(s), Columns(s), (y: nat, x: nat) => t.data(n, y, x, c) * Response(s, t, h, w, f, y, x, c));
    forall c: nat | c < s.inC ensures channels(c) == scattered(c) {
      ChannelScatters(s, t, n, h, w, f, c);
      Sum2Cong(s.kH, s.kW, (kh: nat, kw: nat) => taps(kh, kw, c),
               (kh: nat, kw: nat) => Tap(s, t, n, h, w, f, kh, kw, c));
    }
    SumCong(s.inC, channels, scattered);
  }

  lemma DirectIsTaps(s: Shape, t: Tensors, n: nat, h: nat, w: nat, f: nat, taps: (nat, nat, nat) -> real)
    requires forall kh: nat, kw: nat, c: nat :: taps(kh, kw, c) == Tap(s, t, n, h, w, f, kh, kw, c)
    ensures Direct(s, t, n, h, w, f)
         == Sum2(s.kH, s.kW, (kh: nat, kw: nat) => Sum(s.inC, (c: nat) => taps(kh, kw, c)))
  {
    hide Sum, Tap;
    var g := (kh: nat, kw: nat) => Sum(s.inC, (c: nat) => taps(kh, kw, c));
    forall kh: nat | kh < s.kH ensures RowSum(s, t, n, h, w, f, kh) == Sum(s.kW, (kw: nat) => g(kh, kw)) {
      forall kw: nat | kw < s.kW ensures ChannelSum(s, t, n, h, w, f, kh, kw) == g(kh, kw) {
        SumCong(s.inC, (c: nat) => Tap(s, t, n, h, w, f, kh, kw, c), (c: nat) => taps(kh, kw, c));
      }
      SumCong(s.kW, (kw: nat) => ChannelSum(s, t, n, h, w, f, kh, kw), (kw: nat) => g(kh, kw));
    }
    Sum2AsSums(s.kH, s.kW, g, (kh: nat) => RowSum(s, t, n, h, w, f, kh));
  }

  lemma ChannelScatters(s: Shape, t: Tensors, n: nat, h: nat, w: nat, f: nat, c: nat)
    ensures Sum2(s.kH, s.kW, (kh: nat, kw: nat) => Tap(s, t, n, h, w, f, kh, kw, c))
         == Sum2(Rows(s), Columns(s), (y: nat, x: nat) => t.data(n, y, x, c) * Response(s, t, h, w, f, y, x, c))
  {
    hide Sum, Sum2, Tap, Rows, Columns, Part, Response;
    var part := (kh: nat, kw: nat, y: nat, x: nat) => Part(s, t, n, h, w, f, c, kh, kw, y, x);
    var tap := (kh: nat, kw: nat) => Tap(s, t, n, h, w, f, kh, kw, c);
    var parts := (kh: nat, kw: nat) => Sum2(Rows(s), Columns(s), (y: nat, x: nat) => part(kh, kw, y, x));
    forall kh: nat, kw: nat | kh < s.kH && kw < s.kW ensures tap(kh, kw) == parts(kh, kw) {
      TapIsParts(s, t, n, h, w, f, c, kh, kw);
      Sum2Cong(Rows(s), Columns(s), (y: nat, x: nat) => Part(s, t, n, h, w, f, c, kh, kw, y, x),
               (y: nat, x: nat) => part(kh, kw, y, x));
    }
    Sum2Cong(s.kH, s.kW, tap, parts);
    Sum22Swap(s.kH, s.kW, Rows(s), Columns(s), part);
    var element := (y: nat, x: nat) => t.data(n, y, x, c) * Response(s, t, h, w, f, y, x, c);
    var all := (y: nat, x: nat) => Sum2(s.kH, s.kW, (kh: nat, kw: nat) => part(kh, kw, y, x));
    forall y: nat, x: nat | y < Rows(s) && x < Columns(s) ensures all(y, x) == element(y, x) {
      ElementScales(s, t, n, h, w, f, c, y, x);
      Sum2Cong(s.kH, s.kW, (kh: nat, kw: nat) => part(kh, kw, y, x),
               (kh: nat, kw: nat) => Part(s, t, n, h, w, f, c, kh, kw, y, x));
    }
    Sum2Cong(Rows(s), Columns(s), all, element);
  }

  lemma ElementScales(s: Shape, t: Tensors, n: nat, h: nat, w: nat, f: nat, c: nat, y: nat, x: nat)
    ensures Sum2(s.kH, s.kW, (kh: nat, kw: nat) => Part(s, t, n, h, w, f, c, kh, kw, y, x))
         == t.data(n, y, x, c) * Response(s, t, h, w, f, y, x, c)
  {
    hide Sum2, Hits;
    Sum2Scale(s.kH, s.kW, t.data(n, y, x, c),
      (kh: nat, kw: nat) => if Hits(s, h, kh, y) && Hits(s, w, kw, x) then t.kernel(kh, kw, c, f) else 0.0,
      (kh: nat, kw: nat) => Part(s, t, n, h, w, f, c, kh, kw, y, x));
  }

  /** The data is one at a single place and zero elsewhere. */
  ghost predicate Impulse(t: Tensors, n: nat, y: nat, x: nat, c: nat) {
    forall n': nat, y': int, x': int, c': nat ::
      t.data(n', y', x', c') == if (n', y', x', c') == (n, y, x, c) then 1.0 else 0.0
  }

  /** The response to a single element inside the input: the kernel over the taps that hit it. */
  lemma ImpulseResponse(s: Shape, t: Tensors, n: nat, y: nat, x: nat, c: nat, n': nat, h: nat, w: nat, f: nat)
    requires Impulse(t, n, y, x, c) && y < InputH(s) && x < InputW(s) && c < s.inC
    ensures Direct(s, t, n', h, w, f) == if n' == n then Response(s, t, h, w, f, y, x, c) else 0.0
  {
    ScatterIsDirect(s, t, n', h, w, f);
    hide Sum, Sum2, Direct, InputH, InputW;
    var channels := (c': nat) => Sum2(Rows(s), Columns(s), (y': nat, x': nat) =>
      t.data(n', y', x', c') * Response(s, t, h, w, f, y', x', c'));
    forall c': nat | c' < s.inC && (c' != c || n' != n) ensures channels(c') == 0.0 {
      Sum2Zero(Rows(s), Columns(s), (y': nat, x': nat) => t.data(n', y', x', c') * Response(s, t, h, w, f, y', x', c'));
    }
    if n' == n {
      SumSingle(s.inC, c, channels);
      Sum2Single(Rows(s), Columns(s), y, x,
                 (y': nat, x': nat) => t.data(n', y', x', c) * Response(s, t, h, w, f, y', x', c));
    } else {
      SumZero(s.inC, channels);
    }
  }
}
