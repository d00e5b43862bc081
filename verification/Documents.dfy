/** Document status values, shared by the upload gate, the pipeline and the review routes. */
module Documents {
  datatype Status =
    | Uploaded | Stored | DuplicateDetected | TextExtracted | ItemsDetected | Classified | NeedsReview
    | Reviewed | ClassificationFailed | ExtractionFailed | Failed | ProcessingFailed
}
