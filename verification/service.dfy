/** The contract between the extension and the analysis service on
    http://localhost:8000, as the extension sees it: every call either throws
    (network failure or a body that is not JSON), answers with a status outside
    200-299, or answers with a parsed body. */
module Service {

  datatype Response<+T> = Threw | NotOk(status: int) | Ok(body: T)

  /** Body of `POST /analyze-url`; the score and features are only displayed. */
  datatype UrlVerdict = UrlVerdict(isPhishing: bool, riskScore: real)

  /** Body of `POST /analyze-image`; the score is only displayed. */
  datatype ImageVerdict = ImageVerdict(isDeepfake: bool, deepfakeScore: real)

  /** The outward calls the extension makes, for call traces: the liveness probe
      `GET /`, the two analysis requests, and the popup's script injection and
      messages to the content script. */
  datatype Call =
    | GetRoot
    | PostAnalyzeUrl(url: string)
    | InjectContentScript
    | SendGetImages
    | PostAnalyzeImage(imageUrl: string)
    | SendHighlight(imageUrl: string)
}
