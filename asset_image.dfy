/** The `AssetImg` component: an image that loads a local asset and, once the
    load fails, switches for good to a fallback rendering. */
module AssetImage {

  /** Directory under which local assets are served. */
  const AssetDir: string := "/assets/images/"

  /** The stock picture shown instead of a missing background image. */
  const StockHost: string := "https://images.unsplash.com"
  const FallbackBackgroundUrl: string :=
    StockHost + "/photo-1512314889357-e157c22f938d?auto=format&fit=crop&q=80&w=2000"
  const FallbackBackgroundAlt: string := "Paper Art Texture"

  /** The small heading of the text placeholder. */
  const PlaceholderCaption: string := "Image Asset"

  /** What an `AssetImg` renders: an `<img>` element (which reports load errors
      back to the component only when `reportsLoadError` is set), or a text
      panel standing in for a missing picture. */
  datatype View =
    | Picture(src: string, alt: string, reportsLoadError: bool)
    | Placeholder(caption: string, text: string)

  /** The URL of a local asset. */
  function AssetPath(filename: string): (p: string)
    ensures |p| == |AssetDir| + |filename|
    ensures p[..|AssetDir|] == AssetDir && p[|AssetDir|..] == filename
  {
    AssetDir + filename
  }

  /** Distinct files are requested under distinct URLs. */
  lemma AssetPathInjective(a: string, b: string)
    requires AssetPath(a) == AssetPath(b)
    ensures a == b
  {
  }

  /** The stock picture is not served from the local asset directory, so it is
      never the URL that failed to load. */
  lemma FallbackIsNotLocal(filename: string)
    ensures FallbackBackgroundUrl != AssetPath(filename)
  {
    var p := AssetPath(filename);
    assert p[0] == p[..|AssetDir|][0] == AssetDir[0] == '/';
    assert FallbackBackgroundUrl[0] == StockHost[0] == 'h';
  }

  /** The render choice of the component, from its props and its error flag. */
  function Render(filename: string, alt: string, isBackground: bool, error: bool): (v: View)
    // Until a failure the local asset is shown, with its error handler attached.
    ensures !error ==> v == Picture(AssetPath(filename), alt, true)
    // After a failure nothing listens for errors any more: no retry happens.
    ensures v.Picture? && v.reportsLoadError <==> !error
    // After a failure the local asset is never requested again.
    ensures v.Picture? ==> (v.src == AssetPath(filename) <==> !error)
    // A failed background falls back to the fixed stock picture.
    ensures error && isBackground ==> v == Picture(FallbackBackgroundUrl, FallbackBackgroundAlt, false)
    // A failed foreground image becomes a placeholder naming the missing file.
    ensures error && !isBackground ==> v.Placeholder? && v.text == filename
  {
    if error then
      if isBackground then
        FallbackIsNotLocal(filename);
        Picture(FallbackBackgroundUrl, FallbackBackgroundAlt, false)
      else
        Placeholder(PlaceholderCaption, filename)
    else
      Picture(AssetPath(filename), alt, true)
  }

  /** One mounted `AssetImg`: its props are fixed, its `error` state is local. */
  class AssetImg {
    const filename: string
    const alt: string
    const isBackground: bool
    var error: bool

    constructor (filename: string, alt: string, isBackground: bool)
      ensures this.filename == filename && this.alt == alt && this.isBackground == isBackground
      ensures !error
      ensures CurrentView() == Picture(AssetPath(filename), alt, true)
    {
      this.filename := filename;
      this.alt := alt;
      this.isBackground := isBackground;
      error := false;
    }

    /** What the component currently renders. */
    function CurrentView(): View
      reads this
    {
      Render(filename, alt, isBackground, error)
    }

    /** The browser failed to load the element currently rendered. Only the local
        `<img>` has an `onError` handler; a failure of the fallback is ignored. */
    method LoadFailed()
      modifies this
      ensures error
      ensures old(error) ==> unchanged(this)
      ensures CurrentView() == Render(filename, alt, isBackground, true)
    {
      if CurrentView().Picture? && CurrentView().reportsLoadError {
        error := true;
      }
    }
  }
}
