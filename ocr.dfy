/**
 * Text recognition over a list of images with one recognition worker. The
 * recognition engine is foreign: what it returns for an image is the
 * parameter `recognize`, and a worker is modelled by its lifecycle and by
 * the images it has been asked to recognise.
 */
module Ocr {
  import opened Wrappers
  import opened Files

  /** A worker slot: not created yet, created and usable, or terminated. */
  datatype Lifecycle = NotCreated | Created | Terminated

  /** What the engine returns for one image. */
  datatype Recognition = Recognition(text: string)

  /** The language and engine mode the worker is created with. */
  const Language: string := "por"
  const EngineMode: nat := 1

  const NotFoundMessage: string := "Imagem não encontrada"

  /**
   * A recognition worker. The ghost field `recognized` records the images
   * handed to it, in the order of the calls; the engine keeps no such list.
   */
  class Worker {
    var state: Lifecycle
    var language: string
    var mode: nat
    ghost var recognized: seq<File>

    constructor ()
      ensures state == NotCreated && recognized == []
    {
      state := NotCreated;
      language := "";
      mode := 0;
      recognized := [];
    }

    /**
     * `createWorker(language, mode)`; `ok` says whether the call resolves.
     * A rejected call leaves no worker.
     */
    method Create(lang: string, oem: nat, ok: bool)
      requires state == NotCreated
      modifies this
      ensures ok ==> state == Created && language == lang && mode == oem
      ensures !ok ==> state == NotCreated && language == old(language) && mode == old(mode)
      ensures recognized == old(recognized)
    {
      if ok {
        state := Created;
        language := lang;
        mode := oem;
      }
    }

    /**
     * `worker.recognize(image)`: the engine's answer for the image in the
     * worker's language, None when the call rejects.
     */
    method Recognize(image: File, recognize: (string, File) -> Option<Recognition>)
      returns (r: Option<Recognition>)
      requires state == Created
      modifies this`recognized
      ensures recognized == old(recognized) + [image]
      ensures r == recognize(language, image)
    {
      recognized := recognized + [image];
      r := recognize(language, image);
    }

    /**
     * `worker.terminate()`: a worker is terminated once. `ok` says whether
     * the call resolves; after a rejection the worker counts as still
     * created, since nothing confirms that it was released.
     */
    method Terminate(ok: bool)
      requires state == Created
      modifies this`state
      ensures ok ==> state == Terminated
      ensures !ok ==> state == Created
    {
      if ok {
        state := Terminated;
      }
    }
  }

  /**
   * The outcome of `imageToText`: the message for a missing input, the
   * recognitions of all images, or the rejection that ends the run: of
   * `createWorker`, of the recognition of image `index`, or of `terminate`.
   */
  datatype OcrOutcome =
    | Missing(message: string)
    | Recognized(output: seq<Recognition>)
    | CreateRejected
    | RecognizeRejected(index: nat)
    | TerminateRejected

  /**
   * `imageToText(file)`. A missing list (`null`/`undefined`) is answered
   * without creating the worker. Otherwise one worker is created for
   * Portuguese, the images are recognised one after the other in index
   * order, and the worker is terminated after the last one. Any rejection
   * ends the run at once; one during recognition leaves the worker running.
   * `createOk` and `terminateOk` say whether those two calls resolve.
   */
  method ImageToText(
    file: Option<seq<File>>,
    worker: Worker,
    createOk: bool,
    terminateOk: bool,
    recognize: (string, File) -> Option<Recognition>
  ) returns (out: OcrOutcome)
    requires worker.state == NotCreated && worker.recognized == []
    modifies worker
    ensures file.None? ==> out == Missing(NotFoundMessage) && unchanged(worker)
    ensures file.Some? ==> !out.Missing?
    ensures out.CreateRejected? <==> file.Some? && !createOk
    ensures out.CreateRejected? ==> worker.state == NotCreated && worker.recognized == []
    ensures file.Some? && createOk ==> worker.language == Language && worker.mode == EngineMode
    ensures out.Recognized? <==>
      file.Some? && createOk && terminateOk &&
      forall i :: 0 <= i < |file.value| ==> recognize(Language, file.value[i]).Some?
    ensures out.TerminateRejected? <==>
      file.Some? && createOk && !terminateOk &&
      forall i :: 0 <= i < |file.value| ==> recognize(Language, file.value[i]).Some?
    ensures out.Recognized? ==>
      |out.output| == |file.value| &&
      (forall i :: 0 <= i < |file.value| ==> Some(out.output[i]) == recognize(Language, file.value[i])) &&
      worker.recognized == file.value && worker.state == Terminated
    ensures out.TerminateRejected? ==> worker.recognized == file.value && worker.state == Created
    ensures out.RecognizeRejected? ==>
      out.index < |file.value| &&
      recognize(Language, file.value[out.index]).None? &&
      (forall i :: 0 <= i < out.index ==> recognize(Language, file.value[i]).Some?) &&
      worker.recognized == file.value[..out.index + 1] && worker.state == Created
  {
    if file.None? {
      return Missing(NotFoundMessage);
    }
    var images := file.value;
    worker.Create(Language, EngineMode, createOk);
    if !createOk {
      return CreateRejected;
    }
    var output: seq<Recognition> := [];
    var imageIndex := 0;
    while imageIndex < |images|
      invariant 0 <= imageIndex <= |images|
      invariant worker.state == Created && worker.language == Language && worker.mode == EngineMode
      invariant worker.recognized == images[..imageIndex]
      invariant |output| == imageIndex
      invariant forall i :: 0 <= i < imageIndex ==> Some(output[i]) == recognize(Language, images[i])
    {
      var input := worker.Recognize(images[imageIndex], recognize);
      if input.None? {
        assert images[..imageIndex + 1] == images[..imageIndex] + [images[imageIndex]];
        return RecognizeRejected(imageIndex);
      }
      output := output + [input.value];
      assert images[..imageIndex + 1] == images[..imageIndex] + [images[imageIndex]];
      imageIndex := imageIndex + 1;
    }
    worker.Terminate(terminateOk);
    assert images[..imageIndex] == images;
    if !terminateOk {
      return TerminateRejected;
    }
    return Recognized(output);
  }
}
