# Paper-art portfolio: gallery, lightbox and navigation state

This project is a Dafny model of the logic in the single-page portfolio site's
`src/App.jsx`. That logic covers:

- the compiled-in catalogue of artworks and filter labels;
- the category filter behind the gallery grid;
- the lightbox (`ProjectModal`) state: the selected item, the scroll lock it
  holds on the page body, and which clicks close it;
- the `AssetImg` component. Once its local image fails to load, a background
  image falls back to a fixed stock picture, and any other image to a text
  placeholder that displays the filename;
- the navigation chrome of `App`: the bar that shows after 100 px of
  scrolling, the mobile menu toggle, and `scrollTo`.

Modules, one per component:

- `Catalog` (`catalog.dfy`): the `Item` record, `PortfolioItems`, `Categories`
  and the invariants the data keeps (`WellFormed`).
- `CategoryFilter` (`category_filter.dfy`): `FilterBy`, the `filteredItems`
  expression, with its order, completeness, idempotence and partition lemmas.
- `AssetImage` (`asset_image.dfy`): the pure render choice `Render` and the
  `AssetImg` class, which holds the one-way `error` flag.
- `Gallery` (`gallery.dfy`): the `GallerySection` class with `filter`,
  `selectedItem` and the body `overflow` style, plus click bubbling inside the
  lightbox (`BubblePath`, `OnCloseCalls`).
- `Navigation` (`navigation.dfy`): the `App` class with `activeSection`,
  `menuOpen`, `scrollY` and `showNav`.

The pure parts are functions and lemmas. The event handlers that update
component state are methods of classes. Each method has a `modifies` clause
and says which fields keep their values.

The browser is abstract state here:
- `document.body.style.overflow` is the `bodyOverflow` field.
- The set of element ids that `document.getElementById` can find is the
  constructor parameter `documentIds` of `App`.
- `window.scrollY` is the argument of `HandleScroll`.
- A load failure is a call of `LoadFailed`.

## Model

| member | source | states |
|---|---|---|
| `Catalog.StaticDataWellFormed` | src/App.jsx:10-93 | The shipped data is well formed. The first label is "All". Labels are unique. Item ids are unique. Every item's category is one of the labels after "All". |
| `CategoryFilter.KeepCategory` | src/App.jsx:391 | Every kept item comes from the input and has the chosen category. The result is never longer than the input. |
| `CategoryFilter.FilterBy` | src/App.jsx:389-391 | "All" returns the item list unchanged. Any other label returns only items whose category equals it. The result only holds items of the input. |
| `CategoryFilter.KeepCategoryComplete` | src/App.jsx:391 | Each item with the chosen category is kept exactly as many times as it occurs in the input. No other item is kept (multiset equality). |
| `CategoryFilter.KeepCategoryAppend` | src/App.jsx:391 | Filtering a concatenation equals concatenating the filtered parts, so relative order is preserved. |
| `CategoryFilter.KeepCategoryPositions` | src/App.jsx:391 | The result is the input read at a strictly increasing list of positions. A position is in that list exactly when the item there has the chosen category. |
| `CategoryFilter.FilterComplete` | src/App.jsx:389-391 | For a label other than "All", every input item with that category is in the result. |
| `CategoryFilter.FilterIdempotent` | src/App.jsx:389-391 | Filtering the filtered list again by the same label gives the same list. |
| `CategoryFilter.FilterEmptyIff` | src/App.jsx:389-391 | For a label other than "All", the grid is empty exactly when no item has that category. An unknown label gives the empty list, not an error. |
| `CategoryFilter.CategoriesPartitionItems` | src/App.jsx:389-414 | For well-formed data, the grid sizes summed over the buttons other than "All" equal the number of items. |
| `CategoryFilter.ItemUnderExactlyOneButton` | src/App.jsx:389-414 | For well-formed data, each item is shown under some button other than "All". It is never shown under two different such buttons. |
| `CategoryFilter.NoEmptyCategory` | src/App.jsx:93 | With the shipped data, no filter button shows an empty grid. |
| `AssetImage.AssetPath` | src/App.jsx:103 | The asset URL is the prefix `/assets/images/` followed by the filename. |
| `AssetImage.AssetPathInjective` | src/App.jsx:103 | Different filenames are requested under different URLs. |
| `AssetImage.FallbackIsNotLocal` | src/App.jsx:106-115 | The stock fallback URL is never a local asset URL. |
| `AssetImage.Render` | src/App.jsx:101-139 | With no error, the local asset is shown with its error handler attached. Once `error` is set: no element listens for load errors, the local URL is never requested again, a background shows the fixed stock image, and any other image shows a placeholder that displays the filename. |
| `AssetImage.AssetImg.constructor` | src/App.jsx:101-103 | `error` starts false, and the component first renders the local asset. |
| `AssetImage.AssetImg.LoadFailed` | src/App.jsx:137 | A load error sets `error`, and it is never reset. If `error` was already set, nothing changes, because the fallback has no `onError` handler. |
| `Gallery.BubblePath` | src/App.jsx:468-486 | A click bubbles from the element it lands on out to the backdrop. The close button sits inside the content panel, which sits inside the backdrop. |
| `Gallery.HandlerOf` | src/App.jsx:470-481 | Only the content panel's handler stops propagation. The backdrop's and the close button's handlers call `onClose`. |
| `Gallery.OnCloseCalls` | src/App.jsx:468-481 | `onClose` runs at most once for each element below the first handler that stops propagation. With no such handler, every element on the path calls it. |
| `Gallery.OnCloseCallsStopsAt` | src/App.jsx:474-477 | Bubbling stops at a handler that stops propagation. The elements above it do not change how often `onClose` runs. |
| `Gallery.ClickClosesIff` | src/App.jsx:468-486 | A click on the backdrop or on the close button calls `onClose`. A click on the content panel does not. `onClose` never runs twice for one click. |
| `Gallery.GallerySection.ModalOpen` | src/App.jsx:453-455 | The lightbox is rendered exactly when an item is selected. |
| `Gallery.GallerySection.Cards` | src/App.jsx:389-391 | The grid shows every item under "All". Under any other label it shows only items of that category, and only items of the collection. |
| `Gallery.GallerySection.constructor` | src/App.jsx:385-391 | `filter` starts as "All", and no item is selected, so the lightbox is closed. The grid shows every item. |
| `Gallery.GallerySection.ChooseCategory` | src/App.jsx:402-405 | Only `filter` changes. `selectedItem` and the scroll lock are unchanged. The grid becomes the filter of the items by the new label. |
| `Gallery.GallerySection.ClickCard` | src/App.jsx:420-465 | The clicked card's item becomes `selectedItem`, and the lightbox is open. The body overflow is `hidden`. The filter is unchanged. |
| `Gallery.GallerySection.Close` | src/App.jsx:453-465 | `onClose` clears the selection, which unmounts the lightbox. Its cleanup sets the body overflow to `unset`. The filter is unchanged. |
| `Gallery.GallerySection.ClickInModal` | src/App.jsx:468-481 | A click on the backdrop or the close button closes the lightbox and releases the scroll lock. A click inside the content panel changes nothing. Throughout, scrolling is locked exactly while an item is selected (`Valid`). |
| `Navigation.NavVisible` | src/App.jsx:155 | The bar is shown exactly when the page is scrolled strictly more than 100 px. |
| `Navigation.LowerAscii` | src/App.jsx:240 | `toLowerCase` keeps the length and lower-cases each ASCII capital, leaving other characters alone. |
| `Navigation.NavTargetsExist` | src/App.jsx:237-240 | Each navigation label, lower-cased, is the id of a section rendered on the page. |
| `Navigation.App.constructor` | src/App.jsx:145-148 | The initial state is the `home` section, the menu closed, scroll 0 and the bar hidden. |
| `Navigation.App.HandleScroll` | src/App.jsx:152-156 | `scrollY` takes the new offset, and `showNav` becomes `scrollY > 100`. Nothing else changes. |
| `Navigation.App.ToggleMenu` | src/App.jsx:223-256 | `menuOpen` flips. Nothing else changes. Mouse clicks are blocked while the bar is hidden, but keyboard activation is not, so the handler can run in every state. |
| `Navigation.App.ScrollTo` | src/App.jsx:161-168 | If the target id exists, it becomes `activeSection` and the menu closes. Otherwise all state is unchanged. |
| `Navigation.App.ClickNavLabel` | src/App.jsx:223-269 | A navigation button of the bar or of the overlay always reaches its section, which becomes active, and the menu closes. Mouse clicks are blocked while the bar is hidden or the overlay is slid out, but keyboard activation is not, so the handler can run in every state. |
| `Navigation.App.ClickBrand` | src/App.jsx:223-233 | The name is a plain element that takes no keyboard focus, and the hidden bar takes no mouse clicks, so it can only be clicked while the bar is shown. Clicking it makes `home` the active section and closes the menu. |

## Left out

- Layout, styling, the inline CSS and keyframes, fonts and icons are presentation only. `pointer-events-none` on the hidden bar and `translate-x-full` on the closed overlay block mouse clicks only. The buttons stay reachable from the keyboard, so `ClickNavLabel` and `ToggleMenu` can run in every state. Only `ClickBrand`, on an element that takes no focus, requires `showNav`.
- Viewport width is not modelled. `ClickNavLabel` and `ToggleMenu` are both available in every state, although at any one width the page shows only one of the desktop links and the mobile toggle.
- The parallax offsets (`scrollY * 0.3` and `-scrollY * 0.2`) are floating-point visual effects.
- The actual smooth scrolling done by `scrollIntoView` is browser behaviour. Only its effect on component state is modelled. The scroll events it causes arrive as later `HandleScroll` calls.
- Adding and removing the scroll listener is not modelled. The model assumes the listener is registered for the whole life of `App`.
- The current year in the footer comes from the clock and is not modelled.
- The external links are not modelled.
- React's render and effect scheduling is not modelled. Each handler, together with the re-render and effects it causes, is one atomic step.
- `Navigation.LowerAscii`: it models `toLowerCase` only for ASCII letters. This is enough for the four navigation labels, which are ASCII.
- `Gallery.GallerySection.ClickCard`: it allows a click on a card while the lightbox is open, because the handler does not check for this. In the page such a click cannot happen, because the full-screen backdrop covers the grid.
- `AssetImage.AssetImg`: an instance's props are fixed. The model does not cover a mounted instance receiving a new `filename`, which would keep its `error` flag.
- `vite.config.js` is build configuration and is not part of this model.
