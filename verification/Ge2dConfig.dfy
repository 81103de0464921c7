/**
 The configuration of a GE2D context: six groups of register fields, the
 setters that compare, store and raise update flags, and the loop that
 programs flagged groups.
 */
module Ge2dConfig {
  import opened Options

  datatype Clip = Clip(x0: int, x1: int, y0: int, y1: int)

  datatype SrcData = SrcData(canaddr: int, format: int, phyAddr: int, stride: int, defColor: int)
  datatype SrcGen = SrcGen(picStruct: int, clip: Clip)
  datatype DstData = DstData(src2Canaddr: int, src2Format: int, src2PhyAddr: int, src2Stride: int,
                             dstCanaddr: int, dstFormat: int, dstPhyAddr: int, dstStride: int)
  datatype DstGen = DstGen(src2PicStruct: int, src2Clip: Clip, dstPicStruct: int, dstClip: Clip, dstClipMode: int)
  datatype Key = Key(enabled: int, key: int, mask: int, mode: int)
  datatype Matrix = Unset | Custom | YccToRgb(full: bool) | RgbToYcc(full: bool, bt709: bool)
  datatype DpGen = DpGen(matrix: Matrix, matrixOn: bool, antiflick: int, key: Key, bankLength: int, gbAlpha: int,
                         gbAlpha2: int, constColor: int)
  datatype Coef = Coef(vertical: int, horizontal: int)

  /** `struct ge2d_config_s` without the per-item canvas and DMA tables. */
  datatype Config = Config(srcData: SrcData, srcGen: SrcGen, dstData: DstData, dstGen: DstGen, dp: DpGen, coef: Coef)

  datatype Group = SRC_DATA | SRC_GEN | DST_DATA | DST_GEN | DP_GEN | SCALE_COEF

  /** `UPDATE_ALL` */
  const ALL: set<Group> := {SRC_DATA, SRC_GEN, DST_DATA, DST_GEN, DP_GEN, SCALE_COEF}

  predicate SameGroup(a: Config, b: Config, g: Group) {
    match g
    case SRC_DATA => a.srcData == b.srcData
    case SRC_GEN => a.srcGen == b.srcGen
    case DST_DATA => a.dstData == b.dstData
    case DST_GEN => a.dstGen == b.dstGen
    case DP_GEN => a.dp == b.dp
    case SCALE_COEF => a.coef == b.coef
  }

  /** Every group in which `b` differs from `a` is flagged. */
  predicate Covers(a: Config, b: Config, flags: set<Group>) {
    forall g: Group | g !in flags :: SameGroup(a, b, g)
  }

  lemma CoversTrans(a: Config, b: Config, c: Config, f: set<Group>, f': set<Group>)
    requires Covers(a, b, f) && Covers(b, c, f') && f <= f'
    ensures Covers(a, c, f')
  {
  }

  // -------------------------------------------------------------------------
  // Programming the hardware

  /** What `ge2d_set_*` for group `g` makes of the registers. */
  function WriteGroup(regs: Config, cfg: Config, g: Group): (r: Config) {
    match g
    case SRC_DATA => regs.(srcData := cfg.srcData)
    case SRC_GEN => regs.(srcGen := cfg.srcGen)
    case DST_DATA => regs.(dstData := cfg.dstData)
    case DST_GEN => regs.(dstGen := cfg.dstGen)
    case DP_GEN => regs.(dp := cfg.dp)
    case SCALE_COEF => regs.(coef := cfg.coef)
  }

  /** The registers after every flagged group was written from `cfg`. */
  function Program(regs: Config, cfg: Config, flags: set<Group>): (r: Config)
    ensures forall g: Group :: SameGroup(r, if g in flags then cfg else regs, g)
  {
    Config(if SRC_DATA in flags then cfg.srcData else regs.srcData,
           if SRC_GEN in flags then cfg.srcGen else regs.srcGen,
           if DST_DATA in flags then cfg.dstData else regs.dstData,
           if DST_GEN in flags then cfg.dstGen else regs.dstGen,
           if DP_GEN in flags then cfg.dp else regs.dp,
           if SCALE_COEF in flags then cfg.coef else regs.coef)
  }

  /** Writing the flagged groups is writing all of them exactly when the flags cover the difference. */
  lemma ProgramIsComplete(regs: Config, cfg: Config, flags: set<Group>)
    ensures Program(regs, cfg, flags) == cfg <==> Covers(regs, cfg, flags)
  {
  }

  /** Which bit of the 32-bit flag word stands for each group; the scale coefficients have the highest. */
  datatype Layout = Layout(srcData: nat, srcGen: nat, dstData: nat, dstGen: nat, dpGen: nat, scaleCoef: nat) {
    function Bit(g: Group): (b: nat) {
      match g
      case SRC_DATA => srcData
      case SRC_GEN => srcGen
      case DST_DATA => dstData
      case DST_GEN => dstGen
      case DP_GEN => dpGen
      case SCALE_COEF => scaleCoef
    }

    ghost predicate Valid() {
      && scaleCoef < 32
      && (forall g: Group :: Bit(g) <= scaleCoef)
      && forall g: Group, g': Group | g != g' :: Bit(g) != Bit(g')
    }

    /** The `case` that matches when only bit `i` is left of the word. */
    function GroupAt(i: nat): (g: Option<Group>)
      ensures g.Some? ==> Bit(g.value) == i
      ensures g.None? ==> forall x: Group :: Bit(x) != i
    {
      if i == srcData then Some(SRC_DATA) else if i == srcGen then Some(SRC_GEN)
      else if i == dstData then Some(DST_DATA) else if i == dstGen then Some(DST_GEN)
      else if i == dpGen then Some(DP_GEN) else if i == scaleCoef then Some(SCALE_COEF) else None
    }

    /** The flag word with the bits of some groups set. */
    function Bits(flags: set<Group>): (word: seq<bool>)
      ensures |word| == 32
    {
      seq(32, i => i >= 0 && GroupAt(i).Some? && GroupAt(i).value in flags)
    }

    /** The groups named by the bits of a flag word below `n`. */
    function Named(flag: seq<bool>, n: nat): (s: set<Group>)
      requires |flag| == 32 && forall g: Group :: Bit(g) < 32
    {
      set g: Group | g in ALL && flag[Bit(g)] && Bit(g) < n
    }
  }

  /** The driver's own bits, from the lowest up. */
  const DRIVER := Layout(0, 1, 2, 3, 4, 5)

  /** They are such a layout, and their union is the word of the six lowest bits. */
  lemma DriverLayout()
    ensures DRIVER.Valid()
    ensures forall i | 0 <= i < 32 :: DRIVER.Bits(ALL)[i] == (i < 6)
  {
  }

  lemma AllIsAll(flags: set<Group>)
    ensures flags + ALL == ALL
  {
    forall g: Group ensures g in ALL {
      match g
      case SRC_DATA | SRC_GEN | DST_DATA | DST_GEN | DP_GEN | SCALE_COEF =>
    }
  }

  /** A flag word names the groups whose bits were set in it. */
  lemma BitsNamed(l: Layout, flags: set<Group>)
    requires l.Valid()
    ensures l.Named(l.Bits(flags), 32) == flags
  {
    forall g: Group ensures g in ALL && l.GroupAt(l.Bit(g)) == Some(g) {
      match g
      case SRC_DATA | SRC_GEN | DST_DATA | DST_GEN | DP_GEN | SCALE_COEF =>
    }
  }

  lemma ProgramInsert(regs: Config, cfg: Config, flags: set<Group>, g: Group)
    ensures Program(regs, cfg, flags + {g}) == WriteGroup(Program(regs, cfg, flags), cfg, g)
  {
  }

  /** Bit `i` adds the one group it stands for, if it is set and stands for any. */
  lemma NamedNext(l: Layout, update: seq<bool>, i: nat)
    requires l.Valid() && |update| == 32 && i < 32
    ensures l.Named(update, i + 1) == if update[i] && l.GroupAt(i).Some? then l.Named(update, i) + {l.GroupAt(i).value}
                                      else l.Named(update, i)
  {
  }

  lemma NamedNone(l: Layout, regs: Config, cfg: Config, update: seq<bool>)
    requires l.Valid() && |update| == 32
    ensures Program(regs, cfg, l.Named(update, 0)) == regs
  {
  }

  lemma NamedRest(l: Layout, update: seq<bool>, i: nat)
    requires l.Valid() && |update| == 32
    requires i > l.scaleCoef || forall b | i <= b < 32 :: !update[b]
    ensures l.Named(update, 32) == l.Named(update, i)
  {
  }

  /**
   The mask loop of `ge2d_process_work_queue`: `flag` holds the bits of the
   update word and `i` the position of the mask.
   */
  method ProgramFlagged(l: Layout, regs: Config, cfg: Config, update: seq<bool>) returns (r: Config)
    requires l.Valid() && |update| == 32
    ensures r == Program(regs, cfg, l.Named(update, 32))
  {
    var flag, i := update, 0;
    r := regs;
    NamedNone(l, regs, cfg, update);
    assert forall g: Group :: l.Bit(g) < 32;
    hide Program, WriteGroup, Layout.Named, Layout.GroupAt;
    while (exists b | 0 <= b < 32 :: flag[b]) && i <= l.scaleCoef
      invariant 0 <= i <= l.scaleCoef + 1 && |flag| == 32
      invariant forall b | 0 <= b < 32 :: flag[b] == (b >= i && update[b])
      invariant r == Program(regs, cfg, l.Named(update, i))
      decreases l.scaleCoef + 1 - i
    {
      NamedNext(l, update, i);
      if flag[i] {
        match l.GroupAt(i)
        case None =>
        case Some(g) =>
          ProgramInsert(regs, cfg, l.Named(update, i), g);
          r := WriteGroup(r, cfg, g);
      }
      flag := flag[i := false];
      i := i + 1;
    }
    NamedRest(l, update, i);
  }

  // -------------------------------------------------------------------------
  // The setters

  /** The bits of a format word that choose the colour matrix, and whether the build has the second source's alpha. */
  datatype Platform = Platform(custom: int -> bool, yuv: int -> bool, fullRange: int -> bool, bt709: int -> bool,
                               src2: bool)

  /** The matrix for a pair of formats; formats of one kind only switch it off. */
  function ChooseMatrix(f: Platform, dp: DpGen, src: int, dst: int): (r: DpGen) {
    if f.custom(src) || f.custom(dst) then dp.(matrix := Custom, matrixOn := true)
    else if f.yuv(src) && !f.yuv(dst) then dp.(matrix := YccToRgb(f.fullRange(src)), matrixOn := true)
    else if !f.yuv(src) && f.yuv(dst) then dp.(matrix := RgbToYcc(f.fullRange(dst), f.bt709(dst)), matrixOn := true)
    else dp.(matrixOn := false)
  }

  /**
   The matrix converts what the source holds into what the destination takes: it
   is on exactly when a format asks for its own matrix or one is YUV and the
   other is not; then the range is that of the YUV side and the standard, where
   there is a choice, that of the destination.
   */
  predicate Converts(f: Platform, dp: DpGen, src: int, dst: int) {
    var custom := f.custom(src) || f.custom(dst);
    && (dp.matrixOn <==> custom || f.yuv(src) != f.yuv(dst))
    && (custom ==> dp.matrix == Custom)
    && (dp.matrixOn && !custom ==>
          && !dp.matrix.Custom? && !dp.matrix.Unset?
          && (dp.matrix.YccToRgb? <==> f.yuv(src)) && (dp.matrix.RgbToYcc? <==> f.yuv(dst))
          && dp.matrix.full == f.fullRange(if f.yuv(src) then src else dst)
          && (dp.matrix.RgbToYcc? ==> dp.matrix.bt709 == f.bt709(dst)))
  }

  /** The choice converts, leaves the matrix between formats of one kind as it was, and touches nothing else. */
  lemma MatrixIs(f: Platform, dp: DpGen, src: int, dst: int)
    ensures var r := ChooseMatrix(f, dp, src, dst);
            && Converts(f, r, src, dst) && (!r.matrixOn ==> r.matrix == dp.matrix)
            && r == dp.(matrix := r.matrix, matrixOn := r.matrixOn)
  {
  }

  /** The matrix of a configuration fits the formats stored in it. */
  predicate Matched(f: Platform, c: Config) {
    Converts(f, c.dp, c.srcData.format, c.dstData.dstFormat)
  }

  function PicStruct(format: int): (p: int) {
    format / 8 % 4
  }

  /** Bits 3 and 4 of a format. */
  lemma PicStructIs(high: int, p: int, low: int)
    requires 0 <= p < 4 && 0 <= low < 8
    ensures PicStruct(32 * high + 8 * p + low) == p
  {
    assert (32 * high + 8 * p + low) / 8 == 4 * high + p;
  }

  /** The rectangle a position and a size describe. */
  function Rect(x: int, y: int, w: int, h: int): (c: Clip)
    ensures (c.x0, c.y0) == (x, y) && c.x1 - c.x0 + 1 == w && c.y1 - c.y0 + 1 == h
  {
    Clip(x, x + w - 1, y, y + h - 1)
  }

  /** The calls that configure a context. */
  datatype Request =
    | SetSrc(canaddr: int, format: int, phyAddr: int, stride: int)
    | SetSrc2(canaddr: int, format: int, phyAddr: int, stride: int)
    | SetDst(canaddr: int, format: int, phyAddr: int, stride: int)
    | SetSrcClip(x: int, y: int, w: int, h: int)
    | SetSrc2Clip(x: int, y: int, w: int, h: int)
    | SetDstClip(x: int, y: int, w: int, h: int, mode: int)
    | SetSrcKey(en: int, key: int, mask: int, mode: int)
    | SetSrcColor(color: int)
    | SetGbAlpha(alpha1: int, alpha2: int)
    | SetConstColor(color: int)
    | SetAntiflicker(enable: int)
    | SetMatrixOff
    | SetScaleCoefs(vertical: int, horizontal: int)
    | SetAll(cfg: Config)

  /** The comparison a setter makes before it stores anything; the last three make none. */
  predicate Differs(f: Platform, c: Config, r: Request) {
    match r
    case SetSrc(canaddr, format, phyAddr, stride) =>
      c.srcData != SrcData(canaddr, format, phyAddr, stride, c.srcData.defColor)
    case SetSrc2(canaddr, format, phyAddr, stride) =>
      c.dstData != c.dstData.(src2Canaddr := canaddr, src2Format := format, src2PhyAddr := phyAddr,
                              src2Stride := stride)
    case SetDst(canaddr, format, phyAddr, stride) =>
      c.dstData != c.dstData.(dstCanaddr := canaddr, dstFormat := format, dstPhyAddr := phyAddr, dstStride := stride)
    case SetSrcClip(x, y, w, h) => c.srcGen.clip != Rect(x, y, w, h)
    case SetSrc2Clip(x, y, w, h) => c.dstGen.src2Clip != Rect(x, y, w, h)
    case SetDstClip(x, y, w, h, mode) => c.dstGen.dstClip != Rect(x, y, w, h) || c.dstGen.dstClipMode != mode
    case SetSrcKey(en, key, mask, mode) => c.dp.key != Key(en, key, mask, mode)
    case SetSrcColor(color) => c.srcData.defColor != color
    case SetGbAlpha(alpha1, alpha2) => c.dp.gbAlpha != alpha1 || (f.src2 && c.dp.gbAlpha2 != alpha2)
    case SetConstColor(color) => c.dp.constColor != color
    case SetAntiflicker(enable) => c.dp.antiflick != if enable != 0 then 1 else 0
    case SetMatrixOff | SetScaleCoefs(_, _) | SetAll(_) => true
  }

  /** The configuration stored then; byte and one-bit fields cut what they are given. */
  function Wanted(f: Platform, c: Config, r: Request): (c': Config) {
    match r
    case SetSrc(canaddr, format, phyAddr, stride) =>
      c.(srcData := SrcData(canaddr, format, phyAddr, stride, c.srcData.defColor),
         srcGen := c.srcGen.(picStruct := PicStruct(format)),
         dp := ChooseMatrix(f, c.dp, format, c.dstData.dstFormat))
    case SetSrc2(canaddr, format, phyAddr, stride) =>
      c.(dstData := c.dstData.(src2Canaddr := canaddr % 256, src2Format := format,
                               src2PhyAddr := phyAddr, src2Stride := stride),
         dstGen := c.dstGen.(src2PicStruct := PicStruct(format)))
    case SetDst(canaddr, format, phyAddr, stride) =>
      c.(dstData := c.dstData.(dstCanaddr := canaddr, dstFormat := format, dstPhyAddr := phyAddr, dstStride := stride),
         dstGen := c.dstGen.(dstPicStruct := PicStruct(format)),
         dp := ChooseMatrix(f, c.dp, c.srcData.format, format))
    case SetSrcClip(x, y, w, h) => c.(srcGen := c.srcGen.(clip := Rect(x, y, w, h)))
    case SetSrc2Clip(x, y, w, h) => c.(dstGen := c.dstGen.(src2Clip := Rect(x, y, w, h)))
    case SetDstClip(x, y, w, h, mode) =>
      c.(dstGen := c.dstGen.(dstClip := Rect(x, y, w, h), dstClipMode := mode % 256))
    case SetSrcKey(en, key, mask, mode) =>
      c.(dp := c.dp.(key := Key(en % 2, key, mask, mode % 2), bankLength := 4))
    case SetSrcColor(color) => c.(srcData := c.srcData.(defColor := color))
    case SetGbAlpha(alpha1, alpha2) =>
      c.(dp := c.dp.(gbAlpha := alpha1, gbAlpha2 := if f.src2 then alpha2 else c.dp.gbAlpha2))
    case SetConstColor(color) => c.(dp := c.dp.(constColor := color))
    case SetAntiflicker(enable) => c.(dp := c.dp.(antiflick := if enable != 0 then 1 else 0))
    case SetMatrixOff => c.(dp := c.dp.(matrixOn := false))
    case SetScaleCoefs(vertical, horizontal) => c.(coef := Coef(vertical, horizontal))
    case SetAll(cfg) => cfg
  }

  /** The groups a request flags. */
  function Touched(r: Request): (flags: set<Group>) {
    match r
    case SetSrc(_, _, _, _) => {SRC_DATA, SRC_GEN, DP_GEN}
    case SetSrc2(_, _, _, _) => {DST_DATA, DST_GEN}
    case SetDst(_, _, _, _) => {DST_DATA, DST_GEN, DP_GEN}
    case SetSrcClip(_, _, _, _) => {SRC_GEN}
    case SetSrc2Clip(_, _, _, _) => {DST_GEN}
    case SetDstClip(_, _, _, _, _) => {DST_GEN}
    case SetSrcColor(_) => {SRC_DATA}
    case SetScaleCoefs(_, _) => {SCALE_COEF}
    case SetAll(_) => ALL
    case _ => {DP_GEN}
  }

  function Requested(f: Platform, c: Config, flags: set<Group>, r: Request): (x: (Config, set<Group>)) {
    if Differs(f, c, r) then (Wanted(f, c, r), flags + Touched(r)) else (c, flags)
  }

  /** Whatever a request changes, it flags, and it clears no flag. */
  lemma RequestCovers(f: Platform, c: Config, flags: set<Group>, r: Request)
    ensures var (c', flags') := Requested(f, c, flags, r);
            flags <= flags' && Covers(c, c', flags')
  {
  }

  /** Only the matrix and its switch matter. */
  lemma ConvertsDp(f: Platform, a: DpGen, b: DpGen, src: int, dst: int)
    ensures a.matrix == b.matrix && a.matrixOn == b.matrixOn ==>
              (Converts(f, a, src, dst) <==> Converts(f, b, src, dst))
  {
  }

  /**
   A source or destination that changes makes the matrix fit; only switching it
   off and a whole new set-up undo that.
   */
  lemma RequestMatches(f: Platform, c: Config, flags: set<Group>, r: Request)
    ensures var c' := Requested(f, c, flags, r).0;
            && ((r.SetSrc? || r.SetDst?) && c' != c ==> Matched(f, c'))
            && (!r.SetMatrixOff? && !r.SetAll? && Matched(f, c) ==> Matched(f, c'))
  {
    hide ChooseMatrix, Converts, PicStruct;
    match r
    case SetSrc(_, format, _, _) => MatrixIs(f, c.dp, format, c.dstData.dstFormat);
    case SetDst(_, format, _, _) => MatrixIs(f, c.dp, c.srcData.format, format);
    case _ => ConvertsDp(f, c.dp, Requested(f, c, flags, r).0.dp, c.srcData.format, c.dstData.dstFormat);
  }

  /** What a list of requests makes of a configuration and its flags. */
  function AllRequested(f: Platform, c: Config, flags: set<Group>, rs: seq<Request>): (x: (Config, set<Group>))
    decreases |rs|
  {
    if rs == [] then (c, flags)
    else
      var (c', flags') := Requested(f, c, flags, rs[0]);
      AllRequested(f, c', flags', rs[1..])
  }

  /**
   Over every list of requests the flags cover all that changed, and a matrix
   that fits keeps fitting as long as nobody switches it off or sets everything anew.
   */
  lemma {:induction false} RequestsMatch(f: Platform, c: Config, flags: set<Group>, rs: seq<Request>)
    ensures var (c', flags') := AllRequested(f, c, flags, rs);
            && flags <= flags' && Covers(c, c', flags')
            && (Matched(f, c) && (forall r | r in rs :: !r.SetMatrixOff? && !r.SetAll?) ==> Matched(f, c'))
    decreases |rs|
  {
    hide Requested, Covers, Matched;
    if rs == [] {
      CoversSame(c, flags);
    } else {
      var (c1, flags1) := Requested(f, c, flags, rs[0]);
      RequestCovers(f, c, flags, rs[0]);
      RequestMatches(f, c, flags, rs[0]);
      RequestsMatch(f, c1, flags1, rs[1..]);
      var (c2, flags2) := AllRequested(f, c1, flags1, rs[1..]);
      CoversTrans(c, c1, c2, flags1, flags2);
    }
  }

  lemma CoversSame(c: Config, flags: set<Group>)
    ensures Covers(c, c, flags)
  {
  }

  /** The part of a context that its own thread configures. */
  class Setters {
    const f: Platform
    var config: Config
    var flags: set<Group>

    constructor (f: Platform, config: Config, flags: set<Group>)
      ensures this.f == f && this.config == config && this.flags == flags
    {
      this.f, this.config, this.flags := f, config, flags;
    }

    method Src(canaddr: int, format: int, phyAddr: int, stride: int)
      modifies this
      ensures old(flags) <= flags && Covers(old(config), config, flags)
      ensures config.srcData == SrcData(canaddr, format, phyAddr, stride, old(config).srcData.defColor)
      ensures config.srcData != old(config).srcData ==>
                && config == old(config).(srcData := config.srcData,
                     srcGen := old(config).srcGen.(picStruct := PicStruct(format)),
                     dp := ChooseMatrix(f, old(config).dp, format, old(config).dstData.dstFormat))
                && Matched(f, config) && flags == old(flags) + {SRC_DATA, SRC_GEN, DP_GEN}
      ensures config.srcData == old(config).srcData ==> config == old(config) && flags == old(flags)
    {
      MatrixIs(f, config.dp, format, config.dstData.dstFormat);
      var d := config.srcData;
      if format != d.format || canaddr != d.canaddr || phyAddr != d.phyAddr || stride != d.stride {
        config := config.(srcData := d.(canaddr := canaddr, format := format, phyAddr := phyAddr, stride := stride),
                          srcGen := config.srcGen.(picStruct := PicStruct(format)),
                          dp := ChooseMatrix(f, config.dp, format, config.dstData.dstFormat));
        flags := flags + {SRC_DATA} + {SRC_GEN} + {DP_GEN};
      }
    }

    /** The comparison sees the canvas address before it is cut to a byte. */
    method Src2(canaddr: int, format: int, phyAddr: int, stride: int)
      modifies this
      ensures old(flags) <= flags && Covers(old(config), config, flags)
      ensures var d := old(config).dstData;
              if canaddr == d.src2Canaddr && format == d.src2Format && phyAddr == d.src2PhyAddr
                 && stride == d.src2Stride
              then config == old(config) && flags == old(flags)
              else
                && config == old(config).(
                     dstData := d.(src2Canaddr := canaddr % 256, src2Format := format,
                                   src2PhyAddr := phyAddr, src2Stride := stride),
                     dstGen := old(config).dstGen.(src2PicStruct := PicStruct(format)))
                && flags == old(flags) + {DST_DATA, DST_GEN}
    {
      var d := config.dstData;
      if format != d.src2Format || canaddr != d.src2Canaddr || phyAddr != d.src2PhyAddr || stride != d.src2Stride {
        config := config.(dstData := d.(src2Canaddr := canaddr % 256, src2Format := format,
                                        src2PhyAddr := phyAddr, src2Stride := stride),
                          dstGen := config.dstGen.(src2PicStruct := PicStruct(format)));
        flags := flags + {DST_DATA} + {DST_GEN};
      }
    }

    method Dst(canaddr: int, format: int, phyAddr: int, stride: int)
      modifies this
      ensures old(flags) <= flags && Covers(old(config), config, flags)
      ensures config.dstData == old(config).dstData.(dstCanaddr := canaddr, dstFormat := format,
                                                     dstPhyAddr := phyAddr, dstStride := stride)
      ensures config.dstData != old(config).dstData ==>
                && config == old(config).(dstData := config.dstData,
                     dstGen := old(config).dstGen.(dstPicStruct := PicStruct(format)),
                     dp := ChooseMatrix(f, old(config).dp, old(config).srcData.format, format))
                && Matched(f, config) && flags == old(flags) + {DST_DATA, DST_GEN, DP_GEN}
      ensures config.dstData == old(config).dstData ==> config == old(config) && flags == old(flags)
    {
      MatrixIs(f, config.dp, config.srcData.format, format);
      var d := config.dstData;
      if format != d.dstFormat || canaddr != d.dstCanaddr || phyAddr != d.dstPhyAddr || stride != d.dstStride {
        config := config.(dstData := d.(dstCanaddr := canaddr, dstFormat := format,
                                        dstPhyAddr := phyAddr, dstStride := stride),
                          dstGen := config.dstGen.(dstPicStruct := PicStruct(format)),
                          dp := ChooseMatrix(f, config.dp, config.srcData.format, format));
        flags := flags + {DST_DATA} + {DST_GEN} + {DP_GEN};
      }
    }

    method SrcClip(x: int, y: int, w: int, h: int)
      modifies this
      ensures old(flags) <= flags && Covers(old(config), config, flags)
      ensures config == old(config).(srcGen := old(config).srcGen.(clip := Rect(x, y, w, h)))
      ensures flags == if config == old(config) then old(flags) else old(flags) + {SRC_GEN}
    {
      if config.srcGen.clip != Rect(x, y, w, h) {
        config := config.(srcGen := config.srcGen.(clip := Rect(x, y, w, h)));
        flags := flags + {SRC_GEN};
      }
    }

    method Src2Clip(x: int, y: int, w: int, h: int)
      modifies this
      ensures old(flags) <= flags && Covers(old(config), config, flags)
      ensures config == old(config).(dstGen := old(config).dstGen.(src2Clip := Rect(x, y, w, h)))
      ensures flags == if config == old(config) then old(flags) else old(flags) + {DST_GEN}
    {
      if config.dstGen.src2Clip != Rect(x, y, w, h) {
        config := config.(dstGen := config.dstGen.(src2Clip := Rect(x, y, w, h)));
        flags := flags + {DST_GEN};
      }
    }

    /** The comparison sees the mode before it is cut to a byte. */
    method DstClip(x: int, y: int, w: int, h: int, mode: int)
      modifies this
      ensures old(flags) <= flags && Covers(old(config), config, flags)
      ensures var g := old(config).dstGen;
              if g.dstClip == Rect(x, y, w, h) && g.dstClipMode == mode
              then config == old(config) && flags == old(flags)
              else
                && config == old(config).(dstGen := g.(dstClip := Rect(x, y, w, h), dstClipMode := mode % 256))
                && flags == old(flags) + {DST_GEN}
    {
      if config.dstGen.dstClip != Rect(x, y, w, h) || config.dstGen.dstClipMode != mode {
        config := config.(dstGen := config.dstGen.(dstClip := Rect(x, y, w, h), dstClipMode := mode % 256));
        flags := flags + {DST_GEN};
      }
    }

    /** The comparison sees `en` and `mode` before they are cut to one bit. */
    method SrcKey(en: int, key: int, mask: int, mode: int)
      modifies this
      ensures old(flags) <= flags && Covers(old(config), config, flags)
      ensures old(config).dp.key == Key(en, key, mask, mode) ==> config == old(config) && flags == old(flags)
      ensures old(config).dp.key != Key(en, key, mask, mode) ==>
                && config == old(config).(dp :=
                     old(config).dp.(key := Key(en % 2, key, mask, mode % 2), bankLength := 4))
                && flags == old(flags) + {DP_GEN}
    {
      if config.dp.key != Key(en, key, mask, mode) {
        config := config.(dp := config.dp.(key := Key(en % 2, key, mask, mode % 2), bankLength := 4));
        flags := flags + {DP_GEN};
      }
    }

    method SrcColor(color: int)
      modifies this
      ensures old(flags) <= flags && Covers(old(config), config, flags)
      ensures config == old(config).(srcData := old(config).srcData.(defColor := color))
      ensures flags == if config == old(config) then old(flags) else old(flags) + {SRC_DATA}
    {
      if config.srcData.defColor != color {
        config := config.(srcData := config.srcData.(defColor := color));
        flags := flags + {SRC_DATA};
      }
    }

    method GbAlpha(alpha1: int, alpha2: int)
      modifies this
      ensures old(flags) <= flags && Covers(old(config), config, flags)
      ensures config == old(config).(dp := old(config).dp.(gbAlpha := alpha1,
                gbAlpha2 := if f.src2 then alpha2 else old(config).dp.gbAlpha2))
      ensures flags == if config == old(config) then old(flags) else old(flags) + {DP_GEN}
    {
      if f.src2 {
        if config.dp.gbAlpha != alpha1 || config.dp.gbAlpha2 != alpha2 {
          config := config.(dp := config.dp.(gbAlpha := alpha1, gbAlpha2 := alpha2));
          flags := flags + {DP_GEN};
        }
      } else if config.dp.gbAlpha != alpha1 {
        config := config.(dp := config.dp.(gbAlpha := alpha1));
        flags := flags + {DP_GEN};
      }
    }

    method ConstColor(color: int)
      modifies this
      ensures old(flags) <= flags && Covers(old(config), config, flags)
      ensures config == old(config).(dp := old(config).dp.(constColor := color))
      ensures flags == if config == old(config) then old(flags) else old(flags) + {DP_GEN}
    {
      if config.dp.constColor != color {
        config := config.(dp := config.dp.(constColor := color));
        flags := flags + {DP_GEN};
      }
    }

    method Antiflicker(enable: int)
      modifies this
      ensures old(flags) <= flags && Covers(old(config), config, flags)
      ensures config == old(config).(dp := old(config).dp.(antiflick := if enable != 0 then 1 else 0))
      ensures flags == if config == old(config) then old(flags) else old(flags) + {DP_GEN}
    {
      var on := if enable != 0 then 1 else 0;
      if config.dp.antiflick != on {
        config := config.(dp := config.dp.(antiflick := on));
        flags := flags + {DP_GEN};
      }
    }

    method DisableMatrix()
      modifies this
      ensures old(flags) <= flags && Covers(old(config), config, flags)
      ensures config == old(config).(dp := old(config).dp.(matrixOn := false))
      ensures flags == old(flags) + {DP_GEN}
    {
      config := config.(dp := config.dp.(matrixOn := false));
      flags := flags + {DP_GEN};
    }

    method ScaleCoefs(vertical: int, horizontal: int)
      modifies this
      ensures old(flags) <= flags && Covers(old(config), config, flags)
      ensures config == old(config).(coef := Coef(vertical, horizontal))
      ensures flags == old(flags) + {SCALE_COEF}
    {
      config := config.(coef := Coef(vertical, horizontal));
      flags := flags + {SCALE_COEF};
    }

    /** The `ge2d_context_config_ex` family ends by flagging everything. */
    method Reconfigure(cfg: Config)
      modifies this
      ensures flags == ALL && config == cfg && Covers(old(config), config, flags)
    {
      config := cfg;
      flags := ALL;
    }

    /** Any one of the setters. */
    method Take(r: Request)
      modifies this
      ensures (config, flags) == Requested(f, old(config), old(flags), r)
      ensures (r.SetSrc? || r.SetDst?) && config != old(config) ==> Matched(f, config)
      ensures !r.SetMatrixOff? && !r.SetAll? && Matched(f, old(config)) ==> Matched(f, config)
    {
      hide Covers, Converts, ChooseMatrix;
      RequestMatches(f, config, flags, r);
      match r
      case SetSrc(canaddr, format, phyAddr, stride) => Src(canaddr, format, phyAddr, stride);
      case SetSrc2(canaddr, format, phyAddr, stride) => Src2(canaddr, format, phyAddr, stride);
      case SetDst(canaddr, format, phyAddr, stride) => Dst(canaddr, format, phyAddr, stride);
      case SetSrcClip(x, y, w, h) => SrcClip(x, y, w, h);
      case SetSrc2Clip(x, y, w, h) => Src2Clip(x, y, w, h);
      case SetDstClip(x, y, w, h, mode) => DstClip(x, y, w, h, mode);
      case SetSrcKey(en, key, mask, mode) => SrcKey(en, key, mask, mode);
      case SetSrcColor(color) => SrcColor(color);
      case SetGbAlpha(alpha1, alpha2) => GbAlpha(alpha1, alpha2);
      case SetConstColor(color) => ConstColor(color);
      case SetAntiflicker(enable) => Antiflicker(enable);
      case SetMatrixOff => DisableMatrix();
      case SetScaleCoefs(vertical, horizontal) => ScaleCoefs(vertical, horizontal);
      case SetAll(cfg) =>
        AllIsAll(flags);
        Reconfigure(cfg);
    }
  }
}
