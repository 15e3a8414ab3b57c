/**
 * The render-thread side of the liquid-glass view: a one-element mailbox for
 * captured scenes, the capture geometry bound to the scene texture, the four
 * user parameters, and the decision of each frame to clear or to draw.
 * GL calls are not modelled; a frame's result is the set of uniforms it would
 * draw with, or `Cleared`.
 */
module Renderer {
  import opened Optional

  /** A captured scene: the bitmap reduced to its size, and the region's origin. */
  datatype Scene = Scene(originX: int, originY: int, width: int, height: int)

  /** The capture geometry the texture currently holds (uniform uCaptureRect). */
  datatype CaptureGeometry = CaptureGeometry(x: int, y: int, w: int, h: int)

  /** The four externally driven shader parameters. */
  datatype GlassParams = GlassParams(refraction: real, magnification: real, offsetX: real, offsetY: real)

  /** Everything a drawn frame passes to the shader. */
  datatype Uniforms = Uniforms(
    resolutionW: int, resolutionH: int,
    viewX: real, viewY: real,
    capture: CaptureGeometry,
    roundness: real, distortionIntensity: real, blurIntensity: real,
    params: GlassParams)

  /** Everything a renderer holds besides the four parameters. */
  datatype RenderState = RenderState(
    width: int, height: int,
    sceneTextureId: nat,
    pending: Option<Scene>,
    capture: CaptureGeometry,
    viewX: real, viewY: real)

  datatype Frame =
    | Cleared            // no texture yet: clear to transparent and present
    | Drawn(uniforms: Uniforms)

  const DefaultParams: GlassParams := GlassParams(0.5, 1.0, 0.0, 0.0)
  const Roundness: real := 1.0
  const DistortionIntensity: real := 0.1
  const BlurIntensity: real := 0.1

  class LiquidGlassRenderer {
    var width: int
    var height: int
    /** GL texture name; 0 means no texture has been generated. */
    var sceneTextureId: nat
    /** The single pending scene (pendingSceneBitmap with pendingCaptureX/Y). */
    var pending: Option<Scene>
    var currentCaptureX: int
    var currentCaptureY: int
    var currentCaptureW: int
    var currentCaptureH: int
    var viewScreenX: real
    var viewScreenY: real
    var uRefraction: real
    var uMagnification: real
    var uOffsetX: real
    var uOffsetY: real

    function Parameters(): GlassParams
      reads this
    {
      GlassParams(uRefraction, uMagnification, uOffsetX, uOffsetY)
    }

    function CurrentCapture(): CaptureGeometry
      reads this
    {
      CaptureGeometry(currentCaptureX, currentCaptureY, currentCaptureW, currentCaptureH)
    }

    function State(): RenderState
      reads this
    {
      RenderState(width, height, sceneTextureId, pending, CurrentCapture(), viewScreenX, viewScreenY)
    }

    constructor (width: int, height: int)
      ensures this.width == width && this.height == height
      ensures sceneTextureId == 0 && pending == None
      ensures CurrentCapture() == CaptureGeometry(0, 0, 0, 0)
      ensures viewScreenX == 0.0 && viewScreenY == 0.0
      ensures Parameters() == DefaultParams
    {
      this.width, this.height := width, height;
      sceneTextureId, pending := 0, None;
      currentCaptureX, currentCaptureY, currentCaptureW, currentCaptureH := 0, 0, 0, 0;
      viewScreenX, viewScreenY := 0.0, 0.0;
      uRefraction, uMagnification, uOffsetX, uOffsetY := 0.5, 1.0, 0.0, 0.0;
    }

    method UpdateSize(w: int, h: int)
      modifies this`width, this`height
      ensures width == w && height == h
    {
      width, height := w, h;
    }

    method UpdateViewPosition(x: real, y: real)
      modifies this`viewScreenX, this`viewScreenY
      ensures viewScreenX == x && viewScreenY == y
    {
      viewScreenX, viewScreenY := x, y;
    }

    method SetRefraction(v: real)
      modifies this`uRefraction
      ensures Parameters() == old(Parameters()).(refraction := v)
    {
      uRefraction := v;
    }

    method SetMagnification(v: real)
      modifies this`uMagnification
      ensures Parameters() == old(Parameters()).(magnification := v)
    {
      uMagnification := v;
    }

    method SetOffsetX(v: real)
      modifies this`uOffsetX
      ensures Parameters() == old(Parameters()).(offsetX := v)
    {
      uOffsetX := v;
    }

    method SetOffsetY(v: real)
      modifies this`uOffsetY
      ensures Parameters() == old(Parameters()).(offsetY := v)
    {
      uOffsetY := v;
    }

    /** Publish a scene: the slot is overwritten, an unconsumed scene is dropped. */
    method UploadScene(scene: Scene)
      modifies this`pending
      ensures pending == Some(scene)
    {
      pending := Some(scene);
    }

    /**
     * One frame. A pending scene is consumed: the texture is generated if none
     * exists yet (`generatedId` is the name glGenTextures hands out), the capture
     * geometry becomes the scene's, and the slot empties. Without a texture the
     * frame only clears; otherwise it draws with the current state.
     */
    method RenderFrame(generatedId: nat) returns (frame: Frame)
      modifies this`pending, this`sceneTextureId,
        this`currentCaptureX, this`currentCaptureY, this`currentCaptureW, this`currentCaptureH
      ensures pending == None
      ensures old(pending).Some? ==>
        CurrentCapture() == CaptureGeometry(old(pending).value.originX, old(pending).value.originY,
                                            old(pending).value.width, old(pending).value.height)
      ensures old(pending).None? ==> CurrentCapture() == old(CurrentCapture())
      // a texture is generated only on a consume while none exists; once set it never changes
      ensures sceneTextureId ==
        if old(pending).Some? && old(sceneTextureId) == 0 then generatedId else old(sceneTextureId)
      ensures frame.Cleared? <==> sceneTextureId == 0
      ensures frame.Drawn? ==> frame.uniforms == Uniforms(
        width, height, viewScreenX, viewScreenY, CurrentCapture(),
        Roundness, DistortionIntensity, BlurIntensity, Parameters())
    {
      var bmp := pending;
      if bmp.Some? {
        if sceneTextureId == 0 {
          sceneTextureId := generatedId;
        }
        currentCaptureX := bmp.value.originX;
        currentCaptureY := bmp.value.originY;
        currentCaptureW := bmp.value.width;
        currentCaptureH := bmp.value.height;
        pending := None;
      }
      if sceneTextureId == 0 {
        frame := Cleared;
        return;
      }
      frame := Drawn(Uniforms(width, height, viewScreenX, viewScreenY, CurrentCapture(),
                              Roundness, DistortionIntensity, BlurIntensity, Parameters()));
    }
  }

  /**
   * Last write wins: two scenes published before a frame leave only the second
   * to be consumed, and that frame draws with the second's geometry.
   */
  method LastUploadWins(a: Scene, b: Scene, generatedId: nat) returns (consumed: CaptureGeometry, frame: Frame)
    ensures consumed == CaptureGeometry(b.originX, b.originY, b.width, b.height)
    ensures generatedId != 0 ==> frame.Drawn? && frame.uniforms.capture == consumed
    ensures generatedId == 0 ==> frame == Cleared
  {
    var r := new LiquidGlassRenderer(1080, 2400);
    r.UploadScene(a);
    r.UploadScene(b);
    frame := r.RenderFrame(generatedId);
    consumed := r.CurrentCapture();
  }

  /**
   * Until a texture exists every frame clears; a frame with nothing pending
   * changes nothing, and once a texture exists every later frame draws.
   */
  method NoSceneNoDraw(generatedId: nat, s: Scene) returns (first: Frame, second: Frame, third: Frame)
    ensures first == Cleared
    ensures generatedId != 0 ==> second.Drawn? && third.Drawn? && second == third
    ensures generatedId == 0 ==> second == Cleared && third == Cleared
  {
    var r := new LiquidGlassRenderer(1080, 2400);
    first := r.RenderFrame(generatedId);
    r.UploadScene(s);
    second := r.RenderFrame(generatedId);
    third := r.RenderFrame(generatedId + 1);
  }
}
