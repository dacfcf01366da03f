// The older global store (store/ducks/global/globalSlice.ts): session flags, the
// language, the catalogue dialog and the breadcrumb trail.
module GlobalSlice {
  import opened Results
  import opened Records
  import opened CommonSlice

  datatype Breadcrumb = Breadcrumb(href: string, text: string)

  /** The dialog's part of the store; `selectedArtefact` is `null` when closed. */
  datatype GlobalArtefactModal = GlobalArtefactModal(
    isOpen: bool,
    artefactsList: seq<ArtefactItem>,
    selectedArtefact: Option<ArtefactItem>,
    selectedDType: string)

  /** All fields of the store at one moment. */
  datatype GlobalSnapshot = GlobalSnapshot(
    currentProjectId: string,
    locale: string,
    initialSettings: InitFrontend,
    authenticated: bool,
    searchQuery: string,
    error: ErrorValue,
    availableDataTypes: Record<AvailableDataType>,
    artefactModal: GlobalArtefactModal,
    breadcrumbs: seq<Breadcrumb>)

  class GlobalState {
    var currentProjectId: string
    var locale: string
    var initialSettings: InitFrontend
    var authenticated: bool
    var searchQuery: string
    var error: ErrorValue
    var availableDataTypes: Record<AvailableDataType>
    var artefactModal: GlobalArtefactModal
    var breadcrumbs: seq<Breadcrumb>

    function Snapshot(): GlobalSnapshot
      reads this
    {
      GlobalSnapshot(currentProjectId, locale, initialSettings, authenticated, searchQuery, error,
                     availableDataTypes, artefactModal, breadcrumbs)
    }

    /** The store as `initialGlobalState` builds it; initialState.ts is not part of this model. */
    constructor (initial: GlobalSnapshot)
      ensures Snapshot() == initial
    {
      currentProjectId := initial.currentProjectId;
      locale := initial.locale;
      initialSettings := initial.initialSettings;
      authenticated := initial.authenticated;
      searchQuery := initial.searchQuery;
      error := initial.error;
      availableDataTypes := initial.availableDataTypes;
      artefactModal := initial.artefactModal;
      breadcrumbs := initial.breadcrumbs;
    }

    method FetchAvailableDTypes()
      modifies this
      ensures Snapshot() == old(Snapshot()).(availableDataTypes := [])
    {
      availableDataTypes := [];
    }

    /** Writes the one field's data type; every other field keeps its own. */
    method UpdateAvailableDTypes(fieldName: string, modifier: AvailableDataType)
      modifies this
      ensures Snapshot() == old(Snapshot()).(availableDataTypes := Put(old(availableDataTypes), fieldName, modifier))
      ensures Get(availableDataTypes, fieldName) == Some(modifier)
      ensures forall k :: k != fieldName ==> Get(availableDataTypes, k) == Get(old(availableDataTypes), k)
    {
      availableDataTypes := Put(availableDataTypes, fieldName, modifier);
      forall k ensures Get(availableDataTypes, k) == if k == fieldName then Some(modifier) else Get(old(availableDataTypes), k) {
        GetPut(old(availableDataTypes), fieldName, modifier, k);
      }
    }

    method CloseArtefactModal()
      modifies this
      ensures Snapshot() == old(Snapshot()).(artefactModal := old(artefactModal).(isOpen := false, selectedArtefact := None))
    {
      artefactModal := artefactModal.(isOpen := false, selectedArtefact := None);
    }

    method SelectArtefact(payload: Option<ArtefactItem>)
      modifies this
      ensures Snapshot() == old(Snapshot()).(artefactModal := old(artefactModal).(isOpen := true, selectedArtefact := payload))
    {
      artefactModal := artefactModal.(isOpen := true, selectedArtefact := payload);
    }

    method FetchArtefactsList()
      modifies this
      ensures Snapshot() == old(Snapshot()).(artefactModal := old(artefactModal).(artefactsList := []))
    {
      artefactModal := artefactModal.(artefactsList := []);
    }

    method SetArtefactsList(payload: seq<ArtefactItem>)
      modifies this
      ensures Snapshot() == old(Snapshot()).(artefactModal := old(artefactModal).(artefactsList := payload))
    {
      artefactModal := artefactModal.(artefactsList := payload);
    }

    /**
     * Stores the error, first turned into a network error when it is one; the error
     * logger's classification and conversion are passed in.
     */
    method SetError(payload: ErrorValue, isNetworkError: ErrorValue -> bool, generateNetworkError: ErrorValue -> ErrorValue)
      modifies this
      ensures Snapshot() == old(Snapshot()).(error := if isNetworkError(payload) then generateNetworkError(payload) else payload)
    {
      var e := payload;
      if isNetworkError(e) {
        e := generateNetworkError(e);
      }
      error := e;
    }

    /** The payload is an object; the language is its `locale`. */
    method ChangeLanguage(payloadLocale: string)
      modifies this
      ensures Snapshot() == old(Snapshot()).(locale := payloadLocale)
    {
      locale := payloadLocale;
    }

    method LoginSuccess()
      modifies this
      ensures Snapshot() == old(Snapshot()).(authenticated := true)
    {
      authenticated := true;
    }

    method LogoutUser()
      modifies this
      ensures Snapshot() == old(Snapshot()).(authenticated := false)
    {
      authenticated := false;
    }

    /**
     * Appends one breadcrumb whose link is the application's base path followed by
     * `href`; the earlier breadcrumbs stay as they were.
     */
    method AddBreadcrumb(href: string, text: string, servePath: string)
      modifies this
      ensures Snapshot() == old(Snapshot()).(breadcrumbs := old(breadcrumbs) + [Breadcrumb(servePath + href, text)])
      ensures |breadcrumbs| == |old(breadcrumbs)| + 1
      ensures breadcrumbs[..|old(breadcrumbs)|] == old(breadcrumbs)
      ensures breadcrumbs[|breadcrumbs| - 1] == Breadcrumb(servePath + href, text)
    {
      breadcrumbs := breadcrumbs + [Breadcrumb(servePath + href, text)];
    }
  }
}
