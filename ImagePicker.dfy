/**
 * The image picker's completion callback and the scan screen state it writes
 * through its bindings: the picked image, the prediction text and the flag
 * that opens the result screen.
 *
 * Loading the model, converting the image and running the request are
 * platform calls; their outcomes are parameters. A `fatalError` or a failed
 * force unwrap stops the app: the callback then ends with `Trapped`, and the
 * state is what had been written before the trap.
 */
module ImagePicker {
  import opened Optional
  import opened Classifier

  /** A picked photo. */
  type Image = seq<bv8>

  /** What running the classification request produced. */
  datatype Inference =
    | PerformFailed                               // `perform` threw; the error is only logged
    | Completed(description: Option<string>)      // the request's `results?.description`

  datatype Trap = ModelUnavailable | UnreadableImage | MalformedResult | LabelOutOfRange

  /** How the callback ends. */
  datatype Exit = Dismissed | Trapped(reason: Trap)

  const ModelErrorText := "Error!!! Cannot load the model"
  const ImageErrorText := "Error!!! Cannot read picked image"

  /** The scan screen's state shared with the picker. */
  class ScanSession {
    var selectedImage: Option<Image>
    var prediction: string
    var imageWasClassified: bool

    /** The scan screen's initial state. */
    constructor ()
      ensures selectedImage == None && prediction == "None" && !imageWasClassified
    {
      selectedImage := None;
      prediction := "None";
      imageWasClassified := false;
    }

    /**
     * `imagePickerController(_:didFinishPickingMediaWithInfo:)`. Without a
     * picked image nothing changes and the picker is dismissed. Otherwise the
     * image is stored first; a model that does not load or an image that
     * cannot be converted sets an error text and traps; a request whose
     * result cannot be parsed traps; a successful one stores the label and
     * raises `imageWasClassified`.
     */
    method FinishPicking(picked: Option<Image>, modelLoads: bool, imageConverts: bool, inference: Inference)
      returns (exit: Exit)
      modifies this
      ensures picked.None? ==> exit == Dismissed && unchanged(this)
      ensures picked.Some? ==> selectedImage == picked
      ensures picked.Some? && !modelLoads ==>
        exit == Trapped(ModelUnavailable) && prediction == ModelErrorText && imageWasClassified == old(imageWasClassified)
      ensures picked.Some? && modelLoads && !imageConverts ==>
        exit == Trapped(UnreadableImage) && prediction == ImageErrorText && imageWasClassified == old(imageWasClassified)
      ensures picked.Some? && modelLoads && imageConverts && inference.PerformFailed? ==>
        exit == Dismissed && prediction == old(prediction) && imageWasClassified == old(imageWasClassified)
      ensures picked.Some? && modelLoads && imageConverts && inference.Completed? ==>
        var d := inference.description;
        if d.Some? && !WellBracketed(d.value) then
          exit == Trapped(MalformedResult) && prediction == old(prediction) && imageWasClassified == old(imageWasClassified)
        else if !Classifiable(d) then
          exit == Trapped(LabelOutOfRange) && prediction == old(prediction) && imageWasClassified == old(imageWasClassified)
        else
          exit == Dismissed && prediction == Prediction(d) && imageWasClassified
    {
      if picked.None? {
        return Dismissed;
      }
      selectedImage := picked;
      if !modelLoads {
        prediction := ModelErrorText;
        return Trapped(ModelUnavailable);
      }
      if !imageConverts {
        prediction := ImageErrorText;
        return Trapped(UnreadableImage);
      }
      match inference {
        case PerformFailed =>
        case Completed(d) =>
          if d.Some? && !WellBracketed(d.value) {
            return Trapped(MalformedResult);
          }
          if ResultIndex(d) >= |Labels| {
            return Trapped(LabelOutOfRange);
          }
          prediction := Prediction(d);
          imageWasClassified := true;
      }
      exit := Dismissed;
    }
  }

  /** The result screen opens only after a successful classification, and then shows one of the two labels. */
  method ClassificationGatesResult(picked: Option<Image>, modelLoads: bool, imageConverts: bool, inference: Inference)
    returns (classified: bool, shown: string)
    ensures classified <==> picked.Some? && modelLoads && imageConverts && inference.Completed? && Classifiable(inference.description)
    ensures classified ==> shown == "Benign" || shown == "Malignant"
  {
    var session := new ScanSession();
    var exit := session.FinishPicking(picked, modelLoads, imageConverts, inference);
    classified, shown := session.imageWasClassified, session.prediction;
  }
}
